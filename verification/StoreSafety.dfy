/** What the directory store keeps through every stop, failure and power loss, and when compaction keeps it. */
module StoreSafety {
  import opened CrashDisk
  import opened StoreGenerations

  /** The generation that decides if the power fails now and no pending operation reaches the disk, and the one
      that decides for the running system. */
  datatype View = View(durable: nat, durableParts: seq<nat>, current: nat, currentParts: seq<nat>)

  /** The files both views rest on, except the current manifest while its rename is pending. */
  predicate Protected(v: View, name: Name) {
    match name
    case Manifest(g) => g == v.durable
    case Part(g, k) => (g == v.durable && k < |v.durableParts|) || (g == v.current && k < |v.currentParts|)
    case PendingManifest(_) => false
  }

  function Expected(v: View, name: Name): Content
    requires Protected(v, name)
  {
    match name
    case Manifest(_) => Record(v.durable, v.durableParts)
    case Part(g, k) => Data(if g == v.durable && k < |v.durableParts| then v.durableParts[k] else v.currentParts[k])
  }

  /** A synced file among the first `limit`. */
  predicate Kept(files: seq<File<Content>>, limit: nat, inode: nat, content: Content) {
    inode < limit <= |files| && files[inode] == File(content, true)
  }

  /** The files the current view rests on. */
  predicate Guarded(v: View, name: Name) {
    match name
    case Manifest(g) => g == v.current
    case Part(g, k) => g == v.current && k < |v.currentParts|
    case PendingManifest(_) => false
  }

  /** Pending operations bind no protected file and no manifest but the current one, and remove nothing the current
      view rests on. They may remove what the durable view rests on. */
  predicate OpOk(files: seq<File<Content>>, v: View, limit: nat, op: DirectoryOp<Name>) {
    match op
    case Bind(name, _) => !name.Manifest? && !Protected(v, name)
    case Move(source, target, inode) =>
      && source.PendingManifest? && target == Manifest(v.current) && v.durable < v.current
      && Kept(files, limit, inode, Record(v.current, v.currentParts))
    case Unbind(name) => !Guarded(v, name)
  }

  predicate ViewOk(v: View) {
    v.durable <= v.current && (v.durable == v.current ==> v.durableParts == v.currentParts)
  }

  ghost predicate Holds(files: seq<File<Content>>, dir: Directory<Name>, v: View, limit: nat) {
    && limit <= |files|
    && (forall name | Protected(v, name) :: name in dir && Kept(files, limit, dir[name], Expected(v, name)))
    && (forall name | name in dir && name.Manifest? :: name.generation <= v.durable)
  }

  /** What every run keeps from one power loss to the next. */
  ghost predicate Sound(disk: StoreDisk, v: View, limit: nat) {
    && ViewOk(v)
    && Holds(disk.files, disk.durable, v, limit)
    && (forall op | op in disk.ops :: OpOk(disk.files, v, limit, op))
    && (v.durable < v.current ==> Manifest(v.current) in Current(disk))
  }

  /** No pending operation removes what the durable view rests on. */
  ghost predicate Spares(ops: seq<DirectoryOp<Name>>, v: View) {
    forall name | Protected(v, name) :: Unbind(name) !in ops
  }

  ghost predicate Safe(disk: StoreDisk, v: View, limit: nat) {
    Sound(disk, v, limit) && Spares(disk.ops, v)
  }

  // ----- What survives -----

  /** `dir` may have lost anything but protected files that `ops` do not remove, and gained no manifest but the
      current one. */
  ghost predicate Survived(files: seq<File<Content>>, v: View, limit: nat, ops: seq<DirectoryOp<Name>>,
                           before: Directory<Name>, dir: Directory<Name>)
  {
    && (forall name | Protected(v, name) && name in before && Unbind(name) !in ops :: name in dir && dir[name] == before[name])
    && (forall name | name in dir && name.Manifest? && name.generation > v.durable ::
          name.generation == v.current && Kept(files, limit, dir[name], Record(v.current, v.currentParts)))
  }

  lemma ApplySurvives(files: seq<File<Content>>, v: View, limit: nat, ops: seq<DirectoryOp<Name>>, before: Directory<Name>,
                      dir: Directory<Name>, op: DirectoryOp<Name>)
    requires ViewOk(v) && Survived(files, v, limit, ops, before, dir) && OpOk(files, v, limit, op) && op in ops
    ensures Survived(files, v, limit, ops, before, Apply(dir, op))
  {
    hide Kept;
    var after := Apply(dir, op);
    forall name | Protected(v, name) && name in before && Unbind(name) !in ops ensures name in after && after[name] == before[name] {
      assert name in dir && dir[name] == before[name];
    }
  }

  lemma {:induction false} OpsSurvive(files: seq<File<Content>>, v: View, limit: nat, all: seq<DirectoryOp<Name>>,
                                      dir: Directory<Name>, ops: seq<DirectoryOp<Name>>, kept: seq<bool>)
    requires |kept| == |ops| && ViewOk(v) && Holds(files, dir, v, limit)
    requires forall op | op in ops :: op in all && OpOk(files, v, limit, op)
    ensures Survived(files, v, limit, all, dir, Survivors(dir, ops, kept))
  {
    if ops != [] {
      hide OpOk, Survived, Holds;
      var n := |ops| - 1;
      assert forall op | op in ops[..n] :: op in ops;
      assert ops[n] in ops;
      OpsSurvive(files, v, limit, all, dir, ops[..n], kept[..n]);
      ApplySurvives(files, v, limit, all, dir, Survivors(dir, ops[..n], kept[..n]), ops[n]);
    }
  }

  /** The view in which the generation that decides in `dir` is both durable and current. */
  function Settled(v: View, dir: Directory<Name>): View {
    if Manifest(v.current) in dir then View(v.current, v.currentParts, v.current, v.currentParts)
    else View(v.durable, v.durableParts, v.durable, v.durableParts)
  }

  /** Synced files stay as they are. */
  ghost predicate SyncedKept(files: seq<File<Content>>, files': seq<File<Content>>) {
    |files'| == |files| && forall i | 0 <= i < |files| && files[i].synced :: files'[i] == files[i]
  }

  lemma SettledHolds(files: seq<File<Content>>, files': seq<File<Content>>, ops: seq<DirectoryOp<Name>>, before: Directory<Name>,
                     dir: Directory<Name>, v: View, limit: nat)
    requires ViewOk(v) && Holds(files, before, v, limit) && Survived(files, v, limit, ops, before, dir) && SyncedKept(files, files')
    requires forall name | Protected(Settled(v, dir), name) :: Unbind(name) !in ops
    ensures Safe(Disk(dir, [], files'), Settled(v, dir), limit)
    ensures Settled(v, dir).durable >= v.durable
  {
    var w := Settled(v, dir);
    forall name | Protected(w, name) ensures name in dir && Kept(files', limit, dir[name], Expected(w, name)) {
      if !(name.Manifest? && name.generation > v.durable) {
        assert Protected(v, name);
        assert Expected(v, name) == Expected(w, name);
      }
    }
  }

  lemma ImageSafe(disk: StoreDisk, image: StoreDisk, v: View, limit: nat) returns (w: View)
    requires Safe(disk, v, limit) && CrashImage(disk, image)
    ensures Safe(image, w, |image.files|) && w.durable >= v.durable && w.durable == w.current
  {
    hide OpOk, Holds, Survivors, Current, Survived;
    var kept :| |kept| == |disk.ops| && image.durable == Survivors(disk.durable, disk.ops, kept);
    OpsSurvive(disk.files, v, limit, disk.ops, disk.durable, disk.ops, kept);
    w := Settled(v, image.durable);
    CurrentSpared(disk, v, limit);
    SettledHolds(disk.files, image.files, disk.ops, disk.durable, image.durable, v, limit);
    assert image == Disk(image.durable, [], image.files);
    LimitBelow(image, w, limit);
  }

  lemma LimitBelow(disk: StoreDisk, v: View, limit: nat)
    requires Sound(disk, v, limit)
    ensures Sound(disk, v, |disk.files|)
  {
  }

  lemma CurrentSpared(disk: StoreDisk, v: View, limit: nat)
    requires Sound(disk, v, limit)
    ensures forall name | Guarded(v, name) :: Unbind(name) !in disk.ops
  {
  }

  /** Syncing the directory makes the current generation the durable one, whatever was pending. */
  lemma CurrentSafe(disk: StoreDisk, v: View, limit: nat)
    requires Sound(disk, v, limit)
    ensures Safe(SyncDirectory(disk), View(v.current, v.currentParts, v.current, v.currentParts), limit)
  {
    hide OpOk, Survivors;
    OpsSurvive(disk.files, v, limit, disk.ops, disk.durable, disk.ops, AllKept(|disk.ops|));
    CurrentSpared(disk, v, limit);
    if v.durable == v.current { assert Protected(v, Manifest(v.current)) && Guarded(v, Manifest(v.current)); }
    SettledHolds(disk.files, disk.files, disk.ops, disk.durable, Current(disk), v, limit);
  }

  /** A settled disk opens, at the generation of the view and at no other. */
  lemma SettledOpens(disk: StoreDisk, v: View, limit: nat)
    requires Sound(disk, v, limit) && disk.ops == [] && v.durable == v.current
    ensures Opens(disk, v.current) && Highest(disk.durable, v.durable)
    ensures ReadsAll(disk.files, disk.durable, v.current, v.currentParts)
  {
    CurrentNone(disk);
    var g, parts := v.current, v.currentParts;
    assert Protected(v, Manifest(g));
    forall k | 0 <= k < |parts| ensures Reads(disk.files, disk.durable, Part(g, k), Data(parts[k])) {
      assert Protected(v, Part(g, k));
    }
    assert ReadsAll(disk.files, disk.durable, g, parts);
  }

  lemma SafeOpens(disk: StoreDisk, v: View, limit: nat)
    requires Sound(disk, v, limit)
    ensures Opens(disk, v.current) && Highest(disk.durable, v.durable)
  {
    hide Sound;
    CurrentSafe(disk, v, limit);
    var synced := SyncDirectory(disk);
    SettledOpens(synced, View(v.current, v.currentParts, v.current, v.currentParts), limit);
    CurrentNone(synced);
    DurableHighest(disk, v, limit);
  }

  lemma DurableHighest(disk: StoreDisk, v: View, limit: nat)
    requires Sound(disk, v, limit)
    ensures Highest(disk.durable, v.durable)
  {
    assert Protected(v, Manifest(v.durable));
  }

  lemma HighestUnique(dir: Directory<Name>, g: nat, h: nat)
    requires Highest(dir, g) && Highest(dir, h)
    ensures g == h
  {
    assert Manifest(g) in dir && Manifest(h) in dir;
  }

  // ----- Single calls -----

  lemma SafeFiles(disk: StoreDisk, files: seq<File<Content>>, v: View, limit: nat)
    requires Sound(disk, v, limit) && limit <= |files| && forall i | 0 <= i < limit :: files[i] == disk.files[i]
    ensures Sound(disk.(files := files), v, limit)
  {
    hide Survivors;
    assert Current(disk.(files := files)) == Current(disk);
    forall op | op in disk.ops ensures OpOk(files, v, limit, op) {
      assert OpOk(disk.files, v, limit, op);
    }
    forall name | Protected(v, name) ensures name in disk.durable && Kept(files, limit, disk.durable[name], Expected(v, name)) {
      assert Kept(disk.files, limit, disk.durable[name], Expected(v, name));
    }
  }

  lemma SafeOp(disk: StoreDisk, op: DirectoryOp<Name>, v: View, limit: nat)
    requires Sound(disk, v, limit) && OpOk(disk.files, v, limit, op)
    ensures Sound(disk.(ops := disk.ops + [op]), v, limit)
  {
    hide Survivors, Current, Holds;
    CurrentAfter(disk, op);
  }

  // ----- Invariant -----

  ghost predicate Bound(dir: Directory<Name>, job: Job, n: nat) {
    forall k | 0 <= k < n :: Part(job.next, k) in dir && dir[Part(job.next, k)] == job.base + k
  }

  ghost predicate Filled(files: seq<File<Content>>, job: Job, n: nat) {
    n <= |job.parts| && job.base + n <= |files|
    && forall k | 0 <= k < n :: files[job.base + k] == File(Data(job.parts[k]), true)
  }

  ghost predicate PartsOk(disk: StoreDisk, job: Job, done: nat) {
    Bound(Current(disk), job, done) && Filled(disk.files, job, done)
  }

  predicate PendingOp(op: DirectoryOp<Name>) {
    !op.Move? && op.name.PendingManifest?
  }

  /** All parts are durable and only the pending manifest is being worked on. */
  ghost predicate Ready(disk: StoreDisk, job: Job, v: View) {
    && v.durable == v.current
    && Bound(disk.durable, job, |job.parts|) && Filled(disk.files, job, |job.parts|)
    && forall op | op in disk.ops :: PendingOp(op)
  }

  /** The file created last, and the name it goes by. */
  predicate Newest(disk: StoreDisk, name: Name, inode: nat, content: Content, synced: bool) {
    && name in Current(disk) && Current(disk)[name] == inode
    && |disk.files| == inode + 1 && disk.files[inode] == File(content, synced)
  }

  ghost predicate JobOk(disk: StoreDisk, job: Job, stage: Stage, v: View) {
    var last, pending := job.base + |job.parts|, PendingManifest(job.next);
    && v.current < job.next
    && match stage
       case NextPart(done) => PartsOk(disk, job, done) && |disk.files| == job.base + done
       case PartCreated(done) =>
         done < |job.parts| && PartsOk(disk, job, done) && Newest(disk, Part(job.next, done), job.base + done, Blank, false)
       case PartWritten(done) =>
         && done < |job.parts| && PartsOk(disk, job, done)
         && Newest(disk, Part(job.next, done), job.base + done, Data(job.parts[done]), false)
       case PrerequisitesSynced => Ready(disk, job, v) && |disk.files| == last
       case PendingCleared => Ready(disk, job, v) && |disk.files| == last
       case PendingCreated => Ready(disk, job, v) && Newest(disk, pending, last, Blank, false)
       case PendingWritten => Ready(disk, job, v) && Newest(disk, pending, last, Record(job.next, job.parts), false)
       case PendingSynced => Ready(disk, job, v) && Newest(disk, pending, last, Record(job.next, job.parts), true)
       case ManifestRenamed => false
  }

  ghost predicate InvAt(s: State, v: View) {
    match s.process
    case Closed => Sound(s.disk, v, |s.disk.files|)
    case Open(g) => Sound(s.disk, v, |s.disk.files|) && g == v.current
    case Publishing(g, job, stage) =>
      if stage.ManifestRenamed?
      then Safe(s.disk, v, |s.disk.files|) && g == v.durable && job.next == v.current && g < job.next && job.parts == v.currentParts
      else Sound(s.disk, v, job.base) && g == v.current && JobOk(s.disk, job, stage, v)
    case Compacting(g, pinned, rest) =>
      && Sound(s.disk, v, |s.disk.files|) && g == v.current
      && forall name | name in rest :: Removable(name, g, pinned)
  }

  /** The durable generation is in no danger: no pending operation removes its files, and no running compaction will. */
  ghost predicate KeepsDurable(s: State, v: View) {
    && Spares(s.disk.ops, v)
    && (s.process.Compacting? ==> v.durable == s.process.generation || v.durable in s.process.pinned)
  }

  /** The store is running and the current generation durable, unless a rename has just been done. */
  predicate SyncedAt(s: State, v: View) {
    s.process.Closed? || (s.process.Publishing? && s.process.stage.ManifestRenamed?) || v.durable == v.current
  }

  // ----- Publishing keeps it -----

  lemma CreateSafe(disk: StoreDisk, name: Name, v: View, limit: nat)
    requires Sound(disk, v, limit) && !name.Manifest? && !Protected(v, name)
    ensures var d := Create(disk, name, Blank);
            && Sound(d, v, limit)
            && Current(d) == Current(disk)[name := |disk.files|]
  {
    hide Sound, Survivors, Protected;
    var files := disk.files + [File(Blank, false)];
    LimitKnown(disk, v, limit);
    SafeFiles(disk, files, v, limit);
    SafeOp(disk.(files := files), Bind(name, |disk.files|), v, limit);
    CurrentAfter(disk.(files := files), Bind(name, |disk.files|));
    assert Current(disk.(files := files)) == Current(disk);
  }

  lemma LimitKnown(disk: StoreDisk, v: View, limit: nat)
    requires Sound(disk, v, limit)
    ensures limit <= |disk.files|
  {
  }

  lemma FileSafe(disk: StoreDisk, inode: nat, file: File<Content>, v: View, limit: nat)
    requires Sound(disk, v, limit) && limit <= inode < |disk.files|
    ensures var d := disk.(files := disk.files[inode := file]);
            Sound(d, v, limit) && Current(d) == Current(disk)
  {
    hide Sound, Survivors;
    SafeFiles(disk, disk.files[inode := file], v, limit);
  }

  lemma AdvanceParts(disk: StoreDisk, g: nat, job: Job, stage: Stage, v: View)
    requires InvAt(State(disk, Publishing(g, job, stage)), v)
    requires (stage.NextPart? && stage.done < |job.parts|) || stage.PartCreated? || stage.PartWritten?
    ensures Advance(disk, g, job, stage).Some? && InvAt(Advance(disk, g, job, stage).value, v)
  {
    hide Sound, Survivors, Current;
    match stage
    case NextPart(done) =>
      ViewKnown(disk, v, job.base);
      CreateSafe(disk, Part(job.next, done), v, job.base);
    case PartCreated(done) => FileSafe(disk, job.base + done, File(Data(job.parts[done]), false), v, job.base);
    case PartWritten(done) => FileSafe(disk, job.base + done, File(Data(job.parts[done]), true), v, job.base);
    case _ =>
  }

  lemma ViewKnown(disk: StoreDisk, v: View, limit: nat)
    requires Sound(disk, v, limit)
    ensures ViewOk(v)
  {
  }

  lemma AdvanceToReady(disk: StoreDisk, g: nat, job: Job, v: View)
    requires InvAt(State(disk, Publishing(g, job, NextPart(|job.parts|))), v)
    ensures InvAt(State(SyncDirectory(disk), Publishing(g, job, PrerequisitesSynced)), View(g, v.currentParts, g, v.currentParts))
  {
    hide Sound, Survivors, Current;
    CurrentSafe(disk, v, job.base);
  }

  lemma AdvancePending(disk: StoreDisk, g: nat, job: Job, stage: Stage, v: View)
    requires InvAt(State(disk, Publishing(g, job, stage)), v)
    requires stage.PrerequisitesSynced? || stage.PendingCleared? || stage.PendingCreated? || stage.PendingWritten?
    ensures Advance(disk, g, job, stage).Some? && InvAt(Advance(disk, g, job, stage).value, v)
  {
    hide Sound, Survivors, Current;
    var pending, inode := PendingManifest(job.next), job.base + |job.parts|;
    match stage
    case PrerequisitesSynced => SafeOp(disk, Unbind(pending), v, job.base);
    case PendingCleared => CreateSafe(disk, pending, v, job.base);
    case PendingCreated => FileSafe(disk, inode, File(Record(job.next, job.parts), false), v, job.base);
    case PendingWritten => FileSafe(disk, inode, File(Record(job.next, job.parts), true), v, job.base);
    case _ =>
  }

  lemma RenameSafe(disk: StoreDisk, job: Job, v: View)
    requires Sound(disk, v, job.base) && JobOk(disk, job, PendingSynced, v)
    ensures Sound(Rename(disk, PendingManifest(job.next), Manifest(job.next)),
                 View(v.durable, v.durableParts, job.next, job.parts), |disk.files|)
  {
    hide Survivors, Current;
    var w := View(v.durable, v.durableParts, job.next, job.parts);
    var move := Move(PendingManifest(job.next), Manifest(job.next), job.base + |job.parts|);
    CurrentAfter(disk, move);
    forall name | Protected(w, name)
      ensures name in disk.durable && Kept(disk.files, |disk.files|, disk.durable[name], Expected(w, name))
    {
      if name.generation == v.durable {
        assert Protected(v, name) && Expected(v, name) == Expected(w, name);
      }
    }
    forall op | op in disk.ops + [move] ensures OpOk(disk.files, w, |disk.files|, op) {
      if op in disk.ops { assert PendingOp(op); }
    }
  }

  /** Every publication can take its next step; the step keeps the invariant, and the durable generation does not
      go back. */
  lemma AdvanceKeepsInv(s: State, v: View) returns (w: View)
    requires InvAt(s, v) && s.process.Publishing?
    ensures var next := Advance(s.disk, s.process.generation, s.process.job, s.process.stage);
            && next.Some? && InvAt(next.value, w) && w.durable >= v.durable
            && (s.process.stage.ManifestRenamed? ==> w.durable == s.process.job.next && w.durableParts == s.process.job.parts)
            && (KeepsDurable(s, v) ==> KeepsDurable(next.value, w))
            && (SyncedAt(s, v) ==> SyncedAt(next.value, w))
  {
    hide Sound, Survivors, Current, JobOk;
    var g, job, stage := s.process.generation, s.process.job, s.process.stage;
    match stage
    case NextPart(done) =>
      if done < |job.parts| {
        w := v;
        AdvanceParts(s.disk, g, job, stage, v);
      } else {
        assert done == |job.parts| by { DoneKnown(s, v); }
        w := View(g, v.currentParts, g, v.currentParts);
        AdvanceToReady(s.disk, g, job, v);
        ViewKnown(s.disk, v, job.base);
      }
    case PartCreated(done) => w := v; AdvanceParts(s.disk, g, job, stage, v);
    case PartWritten(done) => w := v; AdvanceParts(s.disk, g, job, stage, v);
    case PrerequisitesSynced => w := v; AdvancePending(s.disk, g, job, stage, v);
    case PendingCleared => w := v; AdvancePending(s.disk, g, job, stage, v);
    case PendingCreated => w := v; AdvancePending(s.disk, g, job, stage, v);
    case PendingWritten => w := v; AdvancePending(s.disk, g, job, stage, v);
    case PendingSynced =>
      w := View(v.durable, v.durableParts, job.next, job.parts);
      RenameSafe(s.disk, job, v);
      PendingKnown(s, v);
      PendingSpares(s, v, w);
    case ManifestRenamed =>
      w := View(v.current, v.currentParts, v.current, v.currentParts);
      CurrentSafe(s.disk, v, |s.disk.files|);
  }

  lemma DoneKnown(s: State, v: View)
    requires InvAt(s, v) && s.process.Publishing? && s.process.stage.NextPart?
    ensures s.process.stage.done <= |s.process.job.parts|
  {
  }

  lemma PendingKnown(s: State, v: View)
    requires InvAt(s, v) && s.process.Publishing? && s.process.stage.PendingSynced?
    ensures v.durable == v.current == s.process.generation < s.process.job.next
    ensures PendingManifest(s.process.job.next) in Current(s.disk)
  {
  }

  lemma PendingSpares(s: State, v: View, w: View)
    requires InvAt(s, v) && s.process.Publishing? && s.process.stage.PendingSynced?
    ensures Spares(Rename(s.disk, PendingManifest(s.process.job.next), Manifest(s.process.job.next)).ops, w)
  {
    hide Sound, Survivors, Current;
    assert forall op | op in s.disk.ops :: PendingOp(op);
  }

  // ----- Every step keeps it -----

  lemma PublishBegins(s: State, s': State, n: nat, parts: seq<nat>, v: View)
    requires InvAt(s, v) && BeginPublish(s, s', n, parts)
    ensures InvAt(s', v)
  {
    hide Sound, Survivors, Current;
    SafeOpens(s.disk, v, |s.disk.files|);
    assert Manifest(v.current) in Current(s.disk);
  }

  lemma CompactBegins(s: State, s': State, pinned: set<nat>, v: View)
    requires InvAt(s, v) && BeginCompact(s, s', pinned)
    ensures InvAt(s', v)
    ensures KeepsDurable(s, v) && AuthorityKept(s.disk, s.process.generation, pinned) ==> KeepsDurable(s', v)
    ensures SyncedAt(s, v) ==> SyncedAt(s', v)
  {
    hide Sound, Survivors, Current;
    DurableHighest(s.disk, v, |s.disk.files|);
    if h :| Highest(s.disk.durable, h) && (h == s.process.generation || h in pinned) {
      HighestUnique(s.disk.durable, h, v.durable);
    }
  }

  lemma RemovalSound(disk: StoreDisk, name: Name, g: nat, pinned: set<nat>, v: View)
    requires Sound(disk, v, |disk.files|) && g == v.current && Removable(name, g, pinned)
    ensures Sound(Remove(disk, name), v, |disk.files|)
    ensures Spares(disk.ops, v) && (v.durable == g || v.durable in pinned) ==> Spares(Remove(disk, name).ops, v)
  {
    hide Sound, Survivors;
    SafeOp(disk, Unbind(name), v, |disk.files|);
  }

  lemma ReopenKeepsInv(s: State, s': State, g: nat, v: View)
    requires InvAt(s, v) && Reopen(s, s', g)
    ensures InvAt(s', v)
  {
    hide Sound, Survivors, Current;
    SafeOpens(s.disk, v, |s.disk.files|);
    HighestUnique(Current(s.disk), g, v.current);
  }

  lemma StopKeepsInv(s: State, s': State, v: View)
    requires InvAt(s, v) && (Stop(s, s') || Fail(s, s'))
    ensures InvAt(s', v) && (KeepsDurable(s, v) ==> KeepsDurable(s', v)) && (SyncedAt(s, v) ==> SyncedAt(s', v))
  {
    hide Survivors, Current, Sound;
    if s.process.Publishing? && !s.process.stage.ManifestRenamed? { LimitBelow(s.disk, v, s.process.job.base); }
  }

  lemma CrashKeepsInv(s: State, s': State, v: View) returns (w: View)
    requires InvAt(s, v) && KeepsDurable(s, v) && PowerLoss(s, s')
    ensures InvAt(s', w) && KeepsDurable(s', w) && w.durable >= v.durable
  {
    hide Sound, CrashImage, JobOk;
    if s.process.Publishing? && !s.process.stage.ManifestRenamed? { LimitBelow(s.disk, v, s.process.job.base); }
    w := ImageSafe(s.disk, s'.disk, v, |s.disk.files|);
  }

  /** Every step but power loss, in any run; where compaction is begun with care the durable generation stays out of
      danger. */
  lemma StepKeepsInv(s: State, s': State, v: View) returns (w: View)
    requires InvAt(s, v) && Step(s, s')
    ensures InvAt(s', w) && w.durable >= v.durable
    ensures KeepsDurable(s, v) && Careful(s, s') ==> KeepsDurable(s', w)
    ensures SyncedAt(s, v) && !(s.process.Closed? && s'.process.Open?) ==> SyncedAt(s', w)
  {
    hide InvAt, SyncedAt, Reopen, BeginPublish, BeginCompact, Advance, Current, RemoveOne, FinishCompact, Stop, Fail, AuthorityKept, KeepsDurable;
    w := v;
    if Stop(s, s') || Fail(s, s') {
      StopKeepsInv(s, s', v);
    } else if g :| Reopen(s, s', g) {
      ReopenKeepsInv(s, s', g, v);
      SameDisk(s, s', v);
    } else if n, parts :| BeginPublish(s, s', n, parts) {
      PublishBegins(s, s', n, parts, v);
      SameDisk(s, s', v);
    } else if Publishes(s, s') {
      w := AdvanceKeepsInv(s, v);
    } else if pinned :| BeginCompact(s, s', pinned) {
      CompactIs(s, s', pinned);
      CompactBegins(s, s', pinned, v);
    } else {
      w := CompactStep(s, s', v);
    }
  }

  lemma SameDisk(s: State, s': State, v: View)
    requires (exists g :: Reopen(s, s', g)) || (exists n, parts :: BeginPublish(s, s', n, parts))
    ensures KeepsDurable(s, v) ==> KeepsDurable(s', v)
    ensures s.process.Closed? == s'.process.Open?
    ensures SyncedAt(s, v) && !s.process.Closed? ==> SyncedAt(s', v)
  {
    hide Opens, IsNext;
  }

  lemma NextKeepsInv(s: State, s': State, v: View) returns (w: View)
    requires InvAt(s, v) && KeepsDurable(s, v) && Next(s, s') && Careful(s, s')
    ensures InvAt(s', w) && KeepsDurable(s', w) && w.durable >= v.durable
  {
    hide InvAt, KeepsDurable, Step, PowerLoss, Careful;
    if Step(s, s') { w := StepKeepsInv(s, s', v); } else { w := CrashKeepsInv(s, s', v); }
  }

  lemma CompactIs(s: State, s': State, pinned: set<nat>)
    requires BeginCompact(s, s', pinned)
    ensures s.process.Open? && s'.process.Compacting? && s'.process.pinned == pinned
  {
  }

  lemma CompactStep(s: State, s': State, v: View) returns (w: View)
    requires InvAt(s, v) && (FinishCompact(s, s') || exists name :: RemoveOne(s, s', name))
    ensures InvAt(s', w) && w.durable >= v.durable
    ensures (KeepsDurable(s, v) ==> KeepsDurable(s', w)) && (SyncedAt(s, v) ==> SyncedAt(s', w))
  {
    hide Sound, Survivors, Current, Spares;
    ViewKnown(s.disk, v, |s.disk.files|);
    w := v;
    if name :| RemoveOne(s, s', name) {
      RemovalSound(s.disk, name, s.process.generation, s.process.pinned, v);
    } else {
      w := View(v.current, v.currentParts, v.current, v.currentParts);
      CurrentSafe(s.disk, v, |s.disk.files|);
    }
  }
}
