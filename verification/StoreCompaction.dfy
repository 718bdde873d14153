/** Compaction of the directory store: exactly when it is safe, and how it loses a published generation when not. */
module StoreCompaction {
  import opened CrashDisk
  import opened StoreGenerations
  import opened StoreSafety
  import opened StoreRecovery

  // ----- When compaction is safe -----

  function RemoveEach(disk: StoreDisk, names: seq<Name>): StoreDisk {
    if names == [] then disk else Remove(RemoveEach(disk, names[..|names| - 1]), names[|names| - 1])
  }

  /** However far the loop gets, in whatever order it meets the files. */
  ghost predicate SafeToCompact(disk: StoreDisk, g: nat, pinned: set<nat>, h: nat) {
    forall names, image | (forall name | name in names :: name in Obsolete(Current(disk), g, pinned))
                          && CrashImage(RemoveEach(disk, names), image) :: Recovers(image, h)
  }

  lemma {:induction false} RemovalsSafe(disk: StoreDisk, names: seq<Name>, g: nat, pinned: set<nat>, v: View)
    requires Safe(disk, v, |disk.files|) && g == v.current && (v.durable == g || v.durable in pinned)
    requires forall name | name in names :: Removable(name, g, pinned)
    ensures Safe(RemoveEach(disk, names), v, |disk.files|) && RemoveEach(disk, names).files == disk.files
  {
    if names != [] {
      hide Sound, Removable, Spares;
      var n := |names| - 1;
      assert forall name | name in names[..n] :: name in names;
      assert names[n] in names;
      RemovalsSafe(disk, names[..n], g, pinned, v);
      RemovalSound(RemoveEach(disk, names[..n]), names[n], g, pinned, v);
    }
  }

  lemma KeptIsSafe(disk: StoreDisk, g: nat, pinned: set<nat>, v: View)
    requires Safe(disk, v, |disk.files|) && g == v.current && (v.durable == g || v.durable in pinned)
    ensures SafeToCompact(disk, g, pinned, v.durable)
  {
    hide Safe, Current, CrashImage, Recovers, Removable;
    forall names, image | (forall name | name in names :: name in Obsolete(Current(disk), g, pinned))
                          && CrashImage(RemoveEach(disk, names), image)
      ensures Recovers(image, v.durable)
    {
      RemovalsSafe(disk, names, g, pinned, v);
      ImageRecovers(RemoveEach(disk, names), image, v);
    }
  }

  lemma DurableIsCurrent(disk: StoreDisk, v: View)
    requires Sound(disk, v, |disk.files|) && Unbind(Manifest(v.durable)) !in disk.ops
    ensures Manifest(v.durable) in Current(disk)
  {
    OpsSurvive(disk.files, v, |disk.files|, disk.ops, disk.durable, disk.ops, AllKept(|disk.ops|));
    assert Protected(v, Manifest(v.durable));
  }

  /** A compaction that removes the durable manifest first. */
  lemma UnkeptLoses(disk: StoreDisk, g: nat, pinned: set<nat>, v: View)
    requires Safe(disk, v, |disk.files|) && v.durable != g && v.durable !in pinned
    ensures !SafeToCompact(disk, g, pinned, v.durable)
  {
    hide Sound, Current, CrashImage, Recovers;
    var name := Manifest(v.durable);
    assert Protected(v, name);
    DurableIsCurrent(disk, v);
    assert name in Obsolete(Current(disk), g, pinned);
    var names := [name];
    assert names[..0] == [] && RemoveEach(disk, names) == Remove(disk, name);
    RemovalIsImage(disk, name);
    RemovedIsLost(disk, v, |disk.files|, name);
    assert forall x | x in names :: x in Obsolete(Current(disk), g, pinned);
  }

  lemma RemovalIsImage(disk: StoreDisk, name: Name)
    ensures CrashImage(Remove(disk, name), OnlyRemoved(disk, name))
  {
    hide CrashImage;
    var after := Remove(disk, name);
    assert after.ops[|disk.ops|] == Unbind(name);
    OnlyRemovedIsImage(after, name);
  }

  /** What is lost before compaction begins is lost with it. */
  lemma DisturbedLoses(disk: StoreDisk, g: nat, pinned: set<nat>, v: View)
    requires Sound(disk, v, |disk.files|) && !Undisturbed(disk, v.durable)
    ensures !SafeToCompact(disk, g, pinned, v.durable)
  {
    hide Sound, CrashImage, Recovers, Undisturbed, Current;
    NothingToLoseIff(disk, v);
    var image :| CrashImage(disk, image) && !Recovers(image, v.durable);
    var none: seq<Name> := [];
    assert RemoveEach(disk, none) == disk && forall name | name in none :: name in Obsolete(Current(disk), g, pinned);
  }

  lemma CompactionSafe(disk: StoreDisk, pinned: set<nat>, v: View)
    requires Sound(disk, v, |disk.files|)
    ensures SafeToCompact(disk, v.current, pinned, v.durable)
       <==> v.durable == v.current || (v.durable in pinned && Undisturbed(disk, v.durable))
  {
    hide Sound, SafeToCompact, Undisturbed, Protected;
    SparesIs(disk, v, |disk.files|);
    if v.durable == v.current { CurrentUndisturbed(disk, v); }
    if !Undisturbed(disk, v.durable) {
      DisturbedLoses(disk, v.current, pinned, v);
    } else if v.durable == v.current || v.durable in pinned {
      KeptIsSafe(disk, v.current, pinned, v);
    } else {
      UnkeptLoses(disk, v.current, pinned, v);
    }
  }

  lemma CurrentUndisturbed(disk: StoreDisk, v: View)
    requires Sound(disk, v, |disk.files|) && v.durable == v.current
    ensures Undisturbed(disk, v.durable)
  {
    hide Sound;
    ViewKnown(disk, v, |disk.files|);
    CurrentSpared(disk, v, |disk.files|);
    assert Spares(disk.ops, v);
    SparesIs(disk, v, |disk.files|);
  }

  /** In every run: compacting an open store leaves every power loss a generation no older than the durable one, in
      whatever order and however far it removes, if and only if the durable manifest is the current one, or is
      pinned and nothing it rests on was removed since the directory was last synced. */
  lemma CompactionSafeIff(t: seq<State>, n: nat, pinned: set<nat>, h: nat)
    requires Trace(t) && n < |t| && t[n].process.Open? && Highest(t[n].disk.durable, h)
    ensures var disk, g := t[n].disk, t[n].process.generation;
            SafeToCompact(disk, g, pinned, h) <==> h == g || (h in pinned && Undisturbed(disk, h))
  {
    hide InvAt, Sound, Trace, SafeToCompact, Highest, Undisturbed;
    var disk := t[n].disk;
    var v := RunningView(t, n);
    InvIsSound(t[n], v);
    OpenKnown(t[n], v);
    DurableHighest(disk, v, |disk.files|);
    HighestUnique(disk.durable, h, v.durable);
    CompactionSafe(disk, pinned, v);
  }

  lemma OpenKnown(s: State, v: View)
    requires InvAt(s, v) && s.process.Open?
    ensures v.current == s.process.generation
  {
  }

  /** In every run: a store with nothing pending, be it since a power loss, a publication, a compaction or a sync on
      opening, can be compacted safely whatever is pinned. */
  lemma SyncedCompactionSafe(t: seq<State>, n: nat, pinned: set<nat>)
    requires Trace(t) && n < |t| && t[n].process.Open? && t[n].disk.ops == []
    ensures Highest(t[n].disk.durable, t[n].process.generation)
    ensures SafeToCompact(t[n].disk, t[n].process.generation, pinned, t[n].process.generation)
  {
    hide InvAt, Sound, Trace, SafeToCompact, Highest;
    var disk, g := t[n].disk, t[n].process.generation;
    var v := RunningView(t, n);
    InvIsSound(t[n], v);
    OpenKnown(t[n], v);
    SafeOpens(disk, v, |disk.files|);
    CurrentNone(disk);
    HighestUnique(disk.durable, g, v.durable);
    CompactionSafeIff(t, n, pinned, g);
  }

  // ----- What a compaction leaves -----

  ghost predicate Removes(s: State, s': State) {
    exists name :: RemoveOne(s, s', name)
  }

  /** A compaction from beginning to end. */
  ghost predicate CompactionRun(t: seq<State>, pinned: set<nat>) {
    && |t| >= 3 && BeginCompact(t[0], t[1], pinned) && FinishCompact(t[|t| - 2], t[|t| - 1])
    && forall i, j | 1 <= i && j == i + 1 < |t| - 1 :: Removes(t[i], t[j])
  }

  predicate Remains(name: Name, g: nat, pinned: set<nat>) {
    !name.PendingManifest? && (name.generation == g || name.generation in pinned)
  }

  function Remaining(dir: Directory<Name>, g: nat, pinned: set<nat>): Directory<Name> {
    map name | name in dir && Remains(name, g, pinned) :: dir[name]
  }

  lemma {:induction false} RemovedSoFar(t: seq<State>, pinned: set<nat>, i: nat)
    requires CompactionRun(t, pinned) && 1 <= i < |t| - 1
    ensures var g, all := t[0].process.generation, Obsolete(Current(t[0].disk), t[0].process.generation, pinned);
            && t[i].process.Compacting? && t[i].process.generation == g && t[i].process.rest <= all
            && Current(t[i].disk) == Current(t[0].disk) - (all - t[i].process.rest)
  {
    hide Current;
    if i > 1 {
      var j := i - 1;
      RemovedSoFar(t, pinned, j);
      assert Removes(t[j], t[i]);
      var name :| RemoveOne(t[j], t[i], name);
      CurrentAfter(t[j].disk, Unbind(name));
    }
  }

  /** In whatever order: a compaction that has run to its end leaves, durably, exactly the files of the current and the
      pinned generations, and the store open. */
  lemma CompactionLeaves(t: seq<State>, pinned: set<nat>)
    requires CompactionRun(t, pinned)
    ensures var s, g := t[|t| - 1], t[0].process.generation;
            s.process == Open(g) && s.disk.ops == [] && s.disk.durable == Remaining(Current(t[0].disk), g, pinned)
  {
    hide Current;
    RemovedSoFar(t, pinned, |t| - 2);
    var g, dir := t[0].process.generation, Current(t[0].disk);
    assert dir - Obsolete(dir, g, pinned) == Remaining(dir, g, pinned);
  }

  lemma {:induction false} RemovesAll(s: State) returns (t: seq<State>)
    requires s.process.Compacting?
    ensures t != [] && t[0] == s && t[|t| - 1].process == s.process.(rest := {})
    ensures forall i, j | 0 <= i && j == i + 1 < |t| :: Removes(t[i], t[j])
    decreases |s.process.rest|
  {
    if s.process.rest == {} {
      t := [s];
    } else {
      var name :| name in s.process.rest;
      var s' := State(Remove(s.disk, name), s.process.(rest := s.process.rest - {name}));
      assert RemoveOne(s, s', name);
      var more := RemovesAll(s');
      t := [s] + more;
      forall i, j | 0 <= i && j == i + 1 < |t| ensures Removes(t[i], t[j]) {
        if i > 0 {
          var a, b := i - 1, j - 1;
          assert Removes(more[a], more[b]);
        }
      }
    }
  }

  /** An open store can always be compacted to the end. */
  lemma CanCompact(s: State, pinned: set<nat>) returns (t: seq<State>)
    requires s.process.Open?
    ensures CompactionRun(t, pinned) && t[0] == s
  {
    hide Current, Removes;
    var begun := s.(process := Compacting(s.process.generation, pinned, Obsolete(Current(s.disk), s.process.generation, pinned)));
    var middle := RemovesAll(begun);
    var last := middle[|middle| - 1];
    var end := State(SyncDirectory(last.disk), Open(s.process.generation));
    t := [s] + middle + [end];
    assert t[1] == begun && t[|t| - 2] == last;
    forall i, j | 1 <= i && j == i + 1 < |t| - 1 ensures Removes(t[i], t[j]) {
      var a, b := i - 1, j - 1;
      assert Removes(middle[a], middle[b]);
    }
  }

  // ----- How a published generation is lost -----

  ghost predicate Path(t: seq<State>) {
    t != [] && forall i, j | 0 <= i && j == i + 1 < |t| :: Next(t[i], t[j])
  }

  lemma PathThen(t: seq<State>, u: seq<State>)
    requires Path(t) && Path(u) && Next(t[|t| - 1], u[0])
    ensures Path(t + u)
  {
    hide Next;
    var all, n := t + u, |t|;
    forall i, j | 0 <= i && j == i + 1 < |all| ensures Next(all[i], all[j]) {
      if j < n {
        assert Next(t[i], t[j]);
      } else if j > n {
        var a, b := i - n, j - n;
        assert Next(u[a], u[b]);
      }
    }
  }

  /** Calls left until the manifest is renamed. */
  function CallsLeft(job: Job, stage: Stage): nat {
    match stage
    case NextPart(done) => if done < |job.parts| then 6 + 3 * (|job.parts| - done) else 6
    case PartCreated(done) => if done < |job.parts| then 5 + 3 * (|job.parts| - done) else 0
    case PartWritten(done) => if done < |job.parts| then 4 + 3 * (|job.parts| - done) else 0
    case PrerequisitesSynced => 5
    case PendingCleared => 4
    case PendingCreated => 3
    case PendingWritten => 2
    case PendingSynced => 1
    case ManifestRenamed => 0
  }

  predicate WorksOn(s: State, g: nat, job: Job) {
    s.process.Publishing? && s.process.generation == g && s.process.job == job
  }

  lemma CloserToRename(s: State, v: View, g: nat, job: Job)
    requires InvAt(s, v) && WorksOn(s, g, job) && !s.process.stage.ManifestRenamed?
    requires Advance(s.disk, g, job, s.process.stage).Some?
    ensures var s' := Advance(s.disk, g, job, s.process.stage).value;
            WorksOn(s', g, job) && CallsLeft(job, s'.process.stage) < CallsLeft(job, s.process.stage)
  {
    hide Safe, Current, PartsOk, Newest, Ready;
    match s.process.stage
    case NextPart(done) =>
    case PartCreated(done) =>
    case PartWritten(done) =>
    case PrerequisitesSynced =>
    case PendingCleared =>
    case PendingCreated =>
    case PendingWritten =>
    case PendingSynced =>
  }

  lemma {:induction false} ReachesRename(s: State, v: View, g: nat, job: Job) returns (t: seq<State>, w: View)
    requires InvAt(s, v) && WorksOn(s, g, job)
    ensures Path(t) && t[0] == s && InvAt(t[|t| - 1], w)
    ensures WorksOn(t[|t| - 1], g, job) && t[|t| - 1].process.stage.ManifestRenamed?
    decreases CallsLeft(job, s.process.stage)
  {
    if s.process.stage.ManifestRenamed? {
      t, w := [s], v;
    } else {
      var u := AdvanceKeepsInv(s, v);
      CloserToRename(s, v, g, job);
      var s' := Advance(s.disk, g, job, s.process.stage).value;
      hide InvAt, Advance, CallsLeft, Next;
      assert Next(s, s') by { PublishIsNext(s, s'); }
      var rest;
      rest, w := ReachesRename(s', u, g, job);
      PathThen([s], rest);
      t := [s] + rest;
    }
  }

  lemma PublishIsNext(s: State, s': State)
    requires Publishes(s, s')
    ensures Next(s, s')
  {
  }

  lemma NextGeneration(names: set<Name>) returns (n: nat)
    ensures n > 0 && (forall name | name in names :: name.generation < n)
    ensures n > 1 ==> exists name | name in names :: name.generation == n - 1
    decreases |names|
  {
    if names == {} {
      n := 1;
    } else {
      var name :| name in names;
      n := NextGeneration(names - {name});
      if name.generation >= n { n := name.generation + 1; }
      assert forall x | x in names :: x == name || x in names - {name};
    }
  }

  /** Stopped between the rename and its directory sync, reopened, then compacted: four steps. */
  lemma CompactedTooSoon(s: State, v: View, pinned: set<nat>) returns (t: seq<State>)
    requires InvAt(s, v) && s.process.Publishing? && s.process.stage.ManifestRenamed? && s.process.generation !in pinned
    ensures |t| == 4 && Path(t) && Next(s, t[0])
    ensures t[3].disk == Remove(s.disk, Manifest(s.process.generation))
    ensures t[3].process.Compacting? && t[3].process.generation == s.process.job.next
    ensures CrashImage(t[3].disk, OnlyRemoved(s.disk, Manifest(s.process.generation)))
    ensures !Recovers(OnlyRemoved(s.disk, Manifest(s.process.generation)), s.process.generation)
  {
    hide Sound, Current, Opens, CrashImage, Recovers, OnlyRemoved;
    var g, next := s.process.generation, s.process.job.next;
    SafeOpens(s.disk, v, |s.disk.files|);
    assert Protected(v, Manifest(g));
    DurableIsCurrent(s.disk, v);
    RemovedIsLost(s.disk, v, |s.disk.files|, Manifest(g));
    RemovalIsImage(s.disk, Manifest(g));
    var a, b := s.(process := Closed), s.(process := Open(next));
    var rest := Obsolete(Current(s.disk), next, pinned);
    var c := s.(process := Compacting(next, pinned, rest));
    var d := State(Remove(s.disk, Manifest(g)), Compacting(next, pinned, rest - {Manifest(g)}));
    assert Stop(s, a) && Reopen(a, b, next) && BeginCompact(b, c, pinned) && RemoveOne(c, d, Manifest(g));
    t := [a, b, c, d];
  }

  /** If that compaction then fails, pinning comes too late: the durable manifest is pinned, and compacting is unsafe. */
  lemma PinnedTooLate(s: State, v: View) returns (t: seq<State>)
    requires InvAt(s, v) && s.process.Publishing? && s.process.stage.ManifestRenamed?
    ensures |t| == 5 && Path(t) && Next(s, t[0]) && t[4].process == Open(s.process.job.next)
    ensures var disk, g := t[4].disk, s.process.generation;
            Highest(disk.durable, g) && !SafeToCompact(disk, s.process.job.next, {g}, g)
  {
    var g, next := s.process.generation, s.process.job.next;
    var path := CompactedTooSoon(s, v, {});
    var last := path[3].(process := Open(next));
    assert Fail(path[3], last);
    assert Highest(s.disk.durable, g) by { DurableHighest(s.disk, v, |s.disk.files|); }
    hide InvAt, Step, CrashImage, Recovers, OnlyRemoved;
    assert Next(path[3], last) by { FailIsNext(path[3], last); }
    PathThen(path, [last]);
    t := path + [last];
    var none: seq<Name> := [];
    assert RemoveEach(last.disk, none) == last.disk && forall name | name in none :: name in Obsolete(Current(last.disk), next, {g});
    assert CrashImage(RemoveEach(last.disk, none), OnlyRemoved(s.disk, Manifest(g)));
  }

  lemma FailIsNext(s: State, s': State)
    requires Fail(s, s')
    ensures Next(s, s')
  {
  }

  lemma BeginIsNext(s: State, s': State, n: nat, parts: seq<nat>)
    requires BeginPublish(s, s', n, parts)
    ensures Next(s, s')
  {
  }

  /** Every run that leaves the store open can go on to publish, up to the rename. */
  lemma CanRename(t: seq<State>, parts: seq<nat>) returns (path: seq<State>, w: View)
    requires Trace(t) && t[|t| - 1].process.Open?
    ensures Path(path) && Next(t[|t| - 1], path[0]) && InvAt(path[|path| - 1], w)
    ensures var end := path[|path| - 1].process;
            && end.Publishing? && end.stage.ManifestRenamed? && end.generation == t[|t| - 1].process.generation
            && end.job.parts == parts
  {
    var s := t[|t| - 1];
    var g := s.process.generation;
    var v := RunningView(t, |t| - 1);
    var n := NextGeneration(Current(s.disk).Keys);
    assert IsNext(Current(s.disk), n);
    var job := Job(n, parts, |s.disk.files|);
    var begun := State(s.disk, Publishing(g, job, NextPart(0)));
    assert BeginPublish(s, begun, n, parts);
    PublishBegins(s, begun, n, parts, v);
    hide InvAt, Step, BeginPublish;
    assert Next(s, begun) by { BeginIsNext(s, begun, n, parts); }
    path, w := ReachesRename(begun, v, g, job);
  }

  /** Every run that leaves the store open can be continued by publishing any parts: the store is then open at the new
      generation, which durably holds them. */
  lemma CanPublish(t: seq<State>, parts: seq<nat>) returns (t': seq<State>)
    requires Trace(t) && t[|t| - 1].process.Open?
    ensures Trace(t') && t <= t'
    ensures var s := t'[|t'| - 1];
            && s.process.Open? && s.process.generation > t[|t| - 1].process.generation
            && Highest(s.disk.durable, s.process.generation)
            && ReadsAll(s.disk.files, s.disk.durable, s.process.generation, parts)
  {
    hide InvAt, Step, Initial, Highest, ReadsAll;
    var path, w := CanRename(t, parts);
    var last := path[|path| - 1];
    var u := AdvanceKeepsInv(last, w);
    var done := Advance(last.disk, last.process.generation, last.process.job, last.process.stage).value;
    assert Next(last, done) by { PublishIsNext(last, done); }
    hide Next;
    PathThen(path, [done]);
    PathThen(t, path + [done]);
    t' := t + (path + [done]);
    var n := |t'| - 2;
    assert t'[n] == last && t'[n + 1] == done;
    RenamedGrows(last, w);
    PublishedReads(t', n);
  }

  lemma RenamedGrows(s: State, v: View)
    requires InvAt(s, v) && s.process.Publishing? && s.process.stage.ManifestRenamed?
    ensures s.process.generation < s.process.job.next
  {
  }

  /** A publication whose call fails before the rename, or a compaction that fails, leaves the store open where it was,
      and any parts can be published from there. */
  lemma CanPublishAfterFailure(t: seq<State>, parts: seq<nat>) returns (t': seq<State>)
    requires Trace(t)
    requires var p := t[|t| - 1].process; p.Compacting? || (p.Publishing? && !p.stage.ManifestRenamed?)
    ensures Trace(t') && t + [t[|t| - 1].(process := Open(t[|t| - 1].process.generation))] <= t'
    ensures var s := t'[|t'| - 1];
            && s.process.Open? && s.process.generation > t[|t| - 1].process.generation
            && Highest(s.disk.durable, s.process.generation)
            && ReadsAll(s.disk.files, s.disk.durable, s.process.generation, parts)
  {
    var s := t[|t| - 1];
    var failed := s.(process := Open(s.process.generation));
    assert Fail(s, failed);
    FailIsNext(s, failed);
    hide Next, Initial, Highest, ReadsAll;
    PathThen(t, [failed]);
    t' := CanPublish(t + [failed], parts);
  }

  lemma LossIsNext(s: State, s': State)
    requires PowerLoss(s, s')
    ensures Next(s, s')
  {
  }

  lemma ReopenIsNext(s: State, s': State, g: nat)
    requires Reopen(s, s', g)
    ensures Next(s, s')
  {
  }

  /** Where compaction is begun with care: after a power loss at any point the store opens on what is left, at a
      generation no older than the durable one, and any parts can be published from there. */
  lemma CanPublishAfterPowerLoss(t: seq<State>, image: StoreDisk, parts: seq<nat>, h: nat) returns (t': seq<State>)
    requires CarefulTrace(t) && CrashImage(t[|t| - 1].disk, image) && Highest(t[|t| - 1].disk.durable, h)
    ensures Trace(t') && |t'| > |t| + 1 && t + [State(image, Closed)] == t'[..|t| + 1]
    ensures var start := t'[|t| + 1]; start.disk == image && start.process.Open? && start.process.generation >= h
    ensures var s := t'[|t'| - 1];
            && s.process.Open? && s.process.generation > t'[|t| + 1].process.generation
            && ReadsAll(s.disk.files, s.disk.durable, s.process.generation, parts)
  {
    var n := |t| - 1;
    assert Recovers(image, h) by {
      hide CarefulTrace, CrashImage, Highest, Recovers;
      assert t != [] by { CarefulIsTrace(t); }
      RecoversAfterPowerLoss(t, n, n, image, h);
    }
    var g :| g >= h && Opens(image, g);
    var lost, start := State(image, Closed), State(image, Open(g));
    LossIsNext(t[n], lost);
    assert Reopen(lost, start, g);
    ReopenIsNext(lost, start, g);
    hide Next, Initial, Highest, ReadsAll, Opens, CrashImage;
    PathThen(t, [lost]);
    PathThen(t + [lost], [start]);
    var u := t + [lost] + [start];
    assert u[|t| + 1] == start && u[..|t| + 1] == t + [lost];
    t' := CanPublish(u, parts);
    assert t'[..|t| + 2] == u;
  }

  lemma CarefulIsTrace(t: seq<State>)
    requires CarefulTrace(t)
    ensures t != []
  {
  }

  /** Every run that leaves the store open can be continued, by one publication, a stop, a reopening and the first
      removal of a compaction, so that a power loss then leaves nothing as new as the generation it was open at;
      unless that generation is pinned. */
  lemma PublishedCanBeLost(t: seq<State>, parts: seq<nat>, pinned: set<nat>) returns (t': seq<State>, image: StoreDisk)
    requires Trace(t) && t[|t| - 1].process.Open? && t[|t| - 1].process.generation !in pinned
    ensures Trace(t') && t <= t'
    ensures CrashImage(t'[|t'| - 1].disk, image) && !Recovers(image, t[|t| - 1].process.generation)
  {
    hide InvAt, Next, CrashImage, Recovers, OnlyRemoved, Initial;
    var path, w := CanRename(t, parts);
    var end := CompactedTooSoon(path[|path| - 1], w, pinned);
    PathThen(path, end);
    PathThen(t, path + end);
    t' := t + (path + end);
    image := OnlyRemoved(path[|path| - 1].disk, Manifest(t[|t| - 1].process.generation));
  }

  /** Every run that leaves the store open can be continued so that it is open again, the durable generation is the
      one it was open at, and pinning that generation does not make compaction safe. */
  lemma PinningCanComeTooLate(t: seq<State>, parts: seq<nat>) returns (t': seq<State>)
    requires Trace(t) && t[|t| - 1].process.Open?
    ensures Trace(t') && t <= t' && t'[|t'| - 1].process.Open?
    ensures var s, h := t'[|t'| - 1], t[|t| - 1].process.generation;
            Highest(s.disk.durable, h) && h != s.process.generation && !SafeToCompact(s.disk, s.process.generation, {h}, h)
  {
    hide Sound, Next, SafeToCompact, Initial, Highest;
    var path, w := CanRename(t, parts);
    var end := PinnedTooLate(path[|path| - 1], w);
    hide InvAt;
    PathThen(path, end);
    PathThen(t, path + end);
    t' := t + (path + end);
  }

  ghost function GenerationOne(): StoreDisk {
    Disk(map[Manifest(1) := 0], [], [File(Record(1, []), true)])
  }

  /** A disk that holds generation 1 and nothing else, and the store opened on it. */
  lemma OpenedOnOne()
    ensures Trace([State(GenerationOne(), Closed), State(GenerationOne(), Open(1))])
  {
    var disk := GenerationOne();
    CurrentNone(disk);
    assert ReadsAll(disk.files, disk.durable, 1, []);
    var a, b := State(disk, Closed), State(disk, Open(1));
    assert Opens(disk, 1) && Reopen(a, b, 1);
  }

  lemma GenerationOneIsLost() returns (t: seq<State>, image: StoreDisk)
    ensures Trace(t) && |t| > 1 && t[1] == State(GenerationOne(), Open(1))
    ensures CrashImage(t[|t| - 1].disk, image) && !Recovers(image, 1)
  {
    hide Trace, CrashImage, Recovers;
    OpenedOnOne();
    var start := [State(GenerationOne(), Closed), State(GenerationOne(), Open(1))];
    t, image := PublishedCanBeLost(start, [], {});
    assert t[1] == start[1];
  }

  /** The pinned generation 1 is in danger although it is durable. */
  lemma PinnedOneInDanger() returns (t: seq<State>)
    ensures Trace(t) && |t| > 1 && t[1] == State(GenerationOne(), Open(1)) && t[|t| - 1].process.Open?
    ensures var s := t[|t| - 1];
            Highest(s.disk.durable, 1) && s.process.generation != 1 && !SafeToCompact(s.disk, s.process.generation, {1}, 1)
  {
    hide Trace, SafeToCompact, Highest;
    OpenedOnOne();
    var start := [State(GenerationOne(), Closed), State(GenerationOne(), Open(1))];
    t := PinningCanComeTooLate(start, []);
    assert t[1] == start[1];
  }
}
