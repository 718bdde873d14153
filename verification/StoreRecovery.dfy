/** Whole runs of the directory store: what every power loss leaves, and when it leaves everything that was durable. */
module StoreRecovery {
  import opened CrashDisk
  import opened StoreGenerations
  import opened StoreSafety

  // ----- Every run -----

  lemma RestView(s: State, g: nat) returns (v: View)
    requires AtRest(s) && Opens(s.disk, g)
    ensures InvAt(s, v) && KeepsDurable(s, v) && v.durable == v.current == g
  {
    CurrentNone(s.disk);
    var parts :| ReadsAll(s.disk.files, Current(s.disk), g, parts);
    v := View(g, parts, g, parts);
    forall name | Protected(v, name)
      ensures name in s.disk.durable && Kept(s.disk.files, |s.disk.files|, s.disk.durable[name], Expected(v, name))
    {
      if name.Part? { assert Reads(s.disk.files, s.disk.durable, Part(g, name.part), Data(parts[name.part])); }
    }
  }

  ghost predicate Known(s: State) {
    exists v :: InvAt(s, v)
  }

  lemma FromRest(s: State, s': State)
    requires AtRest(s) && Step(s, s')
    ensures AtRest(s') || Known(s')
  {
    hide InvAt, Opens;
    if g :| Reopen(s, s', g) {
      var v := RestView(s, g);
      ReopenKeepsInv(s, s', g, v);
    }
  }

  lemma PowerLossRests(s: State, s': State)
    requires PowerLoss(s, s')
    ensures AtRest(s')
  {
  }

  /** In every run, whatever compactions it has: once opened the store is sound until the power fails. */
  lemma {:induction false} EveryState(t: seq<State>, n: nat)
    requires Trace(t) && n < |t|
    ensures AtRest(t[n]) || Known(t[n])
  {
    hide InvAt, Step, PowerLoss, AtRest, Opens;
    if n == 0 {
      assert AtRest(t[0]) by { InitialRests(t[0]); }
    } else {
      var m := n - 1;
      EveryState(t, m);
      assert Next(t[m], t[n]);
      if PowerLoss(t[m], t[n]) {
        PowerLossRests(t[m], t[n]);
      } else if AtRest(t[m]) {
        FromRest(t[m], t[n]);
      } else {
        var v :| InvAt(t[m], v);
        var w := StepKeepsInv(t[m], t[n], v);
      }
    }
  }

  lemma InitialRests(s: State)
    requires Initial(s)
    ensures AtRest(s)
  {
  }

  lemma RunningView(t: seq<State>, n: nat) returns (v: View)
    requires Trace(t) && n < |t| && !t[n].process.Closed?
    ensures InvAt(t[n], v)
  {
    hide InvAt, Trace;
    EveryState(t, n);
    v :| InvAt(t[n], v);
  }

  lemma InvIsSound(s: State, v: View)
    requires InvAt(s, v)
    ensures Sound(s.disk, v, |s.disk.files|)
  {
    hide Sound;
    if s.process.Publishing? && !s.process.stage.ManifestRenamed? { LimitBelow(s.disk, v, s.process.job.base); }
  }

  /** In every run a store that stopped without losing power can be opened again, at the generation it saw. */
  lemma StoppedReopens(t: seq<State>, n: nat)
    requires Trace(t) && n < |t| && !t[n].process.Closed?
    ensures exists g :: Reopen(t[n].(process := Closed), t[n].(process := Open(g)), g)
  {
    hide InvAt, Sound, Trace, Opens;
    var v := RunningView(t, n);
    InvIsSound(t[n], v);
    SafeOpens(t[n].disk, v, |t[n].disk.files|);
    assert Reopen(t[n].(process := Closed), t[n].(process := Open(v.current)), v.current);
  }

  // ----- What a power loss can cost now -----

  /** The parts that the durable manifest of a generation names. */
  function NamedParts(disk: StoreDisk, h: nat): seq<nat> {
    var m := Manifest(h);
    if m in disk.durable && disk.durable[m] < |disk.files| && disk.files[disk.durable[m]].content.Record?
    then disk.files[disk.durable[m]].content.parts else []
  }

  predicate RestsOn(disk: StoreDisk, h: nat, name: Name) {
    name == Manifest(h) || (name.Part? && name.generation == h && name.part < |NamedParts(disk, h)|)
  }

  /** Since the last sync of the directory, neither the manifest nor a part it names was removed. */
  ghost predicate Undisturbed(disk: StoreDisk, h: nat) {
    forall name | RestsOn(disk, h, name) :: Unbind(name) !in disk.ops
  }

  lemma RestsOnIs(disk: StoreDisk, v: View, limit: nat)
    requires Sound(disk, v, limit)
    ensures forall name :: RestsOn(disk, v.durable, name) ==> Protected(v, name)
    ensures forall name | Protected(v, name) :: RestsOn(disk, v.durable, name) || Guarded(v, name)
  {
    assert Protected(v, Manifest(v.durable));
  }

  lemma SparesIs(disk: StoreDisk, v: View, limit: nat)
    requires Sound(disk, v, limit)
    ensures Spares(disk.ops, v) <==> Undisturbed(disk, v.durable)
  {
    hide Sound, Protected, RestsOn, Guarded;
    RestsOnIs(disk, v, limit);
    CurrentSpared(disk, v, limit);
  }

  function OnlyKept(n: nat, k: nat): (kept: seq<bool>)
    ensures |kept| == n && forall i | 0 <= i < n :: kept[i] == (i == k)
  {
    seq(n, i => i == k)
  }

  lemma {:induction false} OneSurvives(dir: Directory<Name>, ops: seq<DirectoryOp<Name>>, k: nat)
    ensures Survivors(dir, ops, OnlyKept(|ops|, k)) == if k < |ops| then Apply(dir, ops[k]) else dir
  {
    if ops != [] {
      var n := |ops| - 1;
      assert OnlyKept(|ops|, k)[..n] == OnlyKept(n, k);
      OneSurvives(dir, ops[..n], k);
    }
  }

  /** The disk on which of all pending operations only one removal arrived. */
  function OnlyRemoved(disk: StoreDisk, name: Name): StoreDisk {
    Disk(disk.durable - {name}, [], seq(|disk.files|, i requires 0 <= i < |disk.files| => disk.files[i].(synced := true)))
  }

  lemma OnlyRemovedIsImage(disk: StoreDisk, name: Name)
    requires Unbind(name) in disk.ops
    ensures CrashImage(disk, OnlyRemoved(disk, name))
  {
    hide Survivors;
    var k: nat :| k < |disk.ops| && disk.ops[k] == Unbind(name);
    OneSurvives(disk.durable, disk.ops, k);
    assert OnlyRemoved(disk, name).durable == Survivors(disk.durable, disk.ops, OnlyKept(|disk.ops|, k));
  }

  lemma RemovedIsLost(disk: StoreDisk, v: View, limit: nat, name: Name)
    requires Sound(disk, v, limit) && RestsOn(disk, v.durable, name)
    ensures !Recovers(OnlyRemoved(disk, name), v.durable)
  {
    var image, h := OnlyRemoved(disk, name), v.durable;
    CurrentNone(image);
    assert Protected(v, Manifest(h));
    forall g, parts | g >= h && Highest(image.durable, g) ensures !ReadsAll(image.files, image.durable, g, parts) {
      assert Manifest(g) in image.durable && g == h;
      if parts == NamedParts(disk, h) { PartMissing(image, h, parts, name); }
    }
  }

  lemma PartMissing(image: StoreDisk, h: nat, parts: seq<nat>, name: Name)
    requires name.Part? && name.generation == h && name.part < |parts| && name !in image.durable
    ensures !ReadsAll(image.files, image.durable, h, parts)
  {
    var k := name.part;
    assert !Reads(image.files, image.durable, Part(h, k), Data(parts[k]));
  }

  lemma ImageRecovers(disk: StoreDisk, image: StoreDisk, v: View)
    requires Safe(disk, v, |disk.files|) && CrashImage(disk, image)
    ensures Recovers(image, v.durable)
  {
    var w := ImageSafe(disk, image, v, |disk.files|);
    hide Sound, Opens;
    SettledOpens(image, w, |image.files|);
  }

  ghost predicate NothingToLose(disk: StoreDisk, h: nat) {
    forall image | CrashImage(disk, image) :: Recovers(image, h)
  }

  lemma NothingToLoseIff(disk: StoreDisk, v: View)
    requires Sound(disk, v, |disk.files|)
    ensures NothingToLose(disk, v.durable) <==> Undisturbed(disk, v.durable)
  {
    hide Sound, CrashImage, Recovers, RestsOn, OnlyRemoved;
    SparesIs(disk, v, |disk.files|);
    if Undisturbed(disk, v.durable) {
      forall image | CrashImage(disk, image) ensures Recovers(image, v.durable) { ImageRecovers(disk, image, v); }
    } else {
      var name :| RestsOn(disk, v.durable, name) && Unbind(name) in disk.ops;
      OnlyRemovedIsImage(disk, name);
      RemovedIsLost(disk, v, |disk.files|, name);
    }
  }

  /** In every run, while the store is running: every power loss leaves a generation no older than the durable one, if
      and only if nothing that one rests on was removed since the directory was last synced. */
  lemma PowerLossCostsNothingIff(t: seq<State>, n: nat, h: nat)
    requires Trace(t) && n < |t| && !t[n].process.Closed? && Highest(t[n].disk.durable, h)
    ensures NothingToLose(t[n].disk, h) <==> Undisturbed(t[n].disk, h)
  {
    hide InvAt, Sound, Trace, Highest, NothingToLose, Undisturbed;
    var v := RunningView(t, n);
    InvIsSound(t[n], v);
    DurableHighest(t[n].disk, v, |t[n].disk.files|);
    HighestUnique(t[n].disk.durable, h, v.durable);
    NothingToLoseIff(t[n].disk, v);
  }

  // ----- Runs that compact with care -----

  /** From `i` to `n` compaction is only begun where the authority is kept. */
  ghost predicate CarefulFrom(t: seq<State>, i: nat, n: nat) {
    n < |t| && forall k, j | i <= k && j == k + 1 <= n :: Careful(t[k], t[j])
  }

  lemma {:induction false} ViewFrom(t: seq<State>, i: nat, v: View, n: nat) returns (w: View)
    requires Trace(t) && i <= n < |t| && CarefulFrom(t, i, n) && InvAt(t[i], v) && KeepsDurable(t[i], v)
    ensures InvAt(t[n], w) && KeepsDurable(t[n], w) && w.durable >= v.durable
  {
    hide InvAt, KeepsDurable, Next, Careful, Initial;
    if n == i {
      w := v;
    } else {
      var m := n - 1;
      var u := ViewFrom(t, i, v, m);
      assert Next(t[m], t[n]) && Careful(t[m], t[n]);
      w := NextKeepsInv(t[m], t[n], u);
    }
  }

  lemma ViewAt(t: seq<State>, n: nat) returns (v: View)
    requires CarefulTrace(t) && n < |t|
    ensures InvAt(t[n], v) && KeepsDurable(t[n], v)
  {
    hide InvAt, KeepsDurable, Next, Careful, Opens;
    var g :| Opens(t[0].disk, g);
    var first := RestView(t[0], g);
    v := ViewFrom(t, 0, first, n);
  }

  lemma RecoversFrom(t: seq<State>, i: nat, v: View, n: nat, image: StoreDisk)
    requires Trace(t) && i <= n < |t| && CarefulFrom(t, i, n) && InvAt(t[i], v) && KeepsDurable(t[i], v)
    requires CrashImage(t[n].disk, image)
    ensures Recovers(image, v.durable)
  {
    hide InvAt, Sound, CrashImage, Trace, CarefulFrom, Opens;
    var w := ViewFrom(t, i, v, n);
    InvIsSound(t[n], w);
    ImageRecovers(t[n].disk, image, w);
  }

  /** Where compaction is begun with care throughout: whatever a power loss leaves can be opened, at a generation no
      older than any that was durable before. */
  lemma RecoversAfterPowerLoss(t: seq<State>, i: nat, n: nat, image: StoreDisk, h: nat)
    requires CarefulTrace(t) && i <= n < |t| && Highest(t[i].disk.durable, h) && CrashImage(t[n].disk, image)
    ensures Recovers(image, h)
  {
    hide InvAt, Sound, KeepsDurable, CrashImage, Highest, Opens, Careful, Next, Initial;
    var v := ViewAt(t, i);
    InvIsSound(t[i], v);
    DurableHighest(t[i].disk, v, |t[i].disk.files|);
    HighestUnique(t[i].disk.durable, h, v.durable);
    RecoversFrom(t, i, v, n, image);
  }

  /** Once a publication has returned, and whatever was done before it, no power loss goes back behind it as long as
      compaction is begun with care from then on. */
  lemma PublishedStays(t: seq<State>, i: nat, n: nat, image: StoreDisk)
    requires Trace(t) && i < n < |t| && CarefulFrom(t, i + 1, n) && CrashImage(t[n].disk, image)
    requires t[i].process.Publishing? && t[i].process.stage.ManifestRenamed? && Publishes(t[i], t[i + 1])
    ensures t[i + 1].process == Open(t[i].process.job.next) && Recovers(image, t[i].process.job.next)
  {
    hide InvAt, CrashImage, Trace, CarefulFrom, Opens, Current, Recovers;
    var v := RunningView(t, i);
    var u := AdvanceKeepsInv(t[i], v);
    assert KeepsDurable(t[i], v) by { RenamedKeeps(t[i], v); }
    RecoversFrom(t, i + 1, u, n, image);
  }

  /** When a publication returns, the disk durably holds the new generation with exactly the parts that were published. */
  lemma PublishedReads(t: seq<State>, i: nat)
    requires Trace(t) && i + 1 < |t|
    requires t[i].process.Publishing? && t[i].process.stage.ManifestRenamed? && Publishes(t[i], t[i + 1])
    ensures var disk, job := t[i + 1].disk, t[i].process.job;
            && t[i + 1].process == Open(job.next) && disk.ops == []
            && Highest(disk.durable, job.next) && ReadsAll(disk.files, disk.durable, job.next, job.parts)
  {
    hide Trace, Opens, Current, Sound, Highest, ReadsAll;
    var v := RunningView(t, i);
    var w := AdvanceKeepsInv(t[i], v);
    ViewKnown(t[i + 1].disk, w, |t[i + 1].disk.files|);
    SettledOpens(t[i + 1].disk, w, |t[i + 1].disk.files|);
  }

  lemma RenamedKeeps(s: State, v: View)
    requires InvAt(s, v) && s.process.Publishing? && s.process.stage.ManifestRenamed?
    ensures KeepsDurable(s, v)
  {
  }

  /** Where compaction is begun with care, a closed store can always be opened again. */
  lemma AlwaysReopens(t: seq<State>, n: nat)
    requires CarefulTrace(t) && n < |t| && t[n].process == Closed
    ensures exists g :: Reopen(t[n], t[n].(process := Open(g)), g)
  {
    hide InvAt, Sound, KeepsDurable, CarefulTrace, Opens;
    var v := ViewAt(t, n);
    InvIsSound(t[n], v);
    SafeOpens(t[n].disk, v, |t[n].disk.files|);
    assert Reopen(t[n], t[n].(process := Open(v.current)), v.current);
  }

  // ----- Runs that sync the directory on opening -----

  lemma ProbedOpens(s: State, s': State, g: nat, v: View) returns (w: View)
    requires InvAt(s, v) && KeepsDurable(s, v) && ReopenProbed(s, s', g)
    ensures InvAt(s', w) && KeepsDurable(s', w) && SyncedAt(s', w) && w.durable >= v.durable
  {
    hide Sound, Current;
    CurrentSafe(s.disk, v, |s.disk.files|);
    ViewKnown(s.disk, v, |s.disk.files|);
    SafeOpens(s.disk, v, |s.disk.files|);
    HighestUnique(Current(s.disk), g, v.current);
    w := View(v.current, v.currentParts, v.current, v.currentParts);
  }

  lemma SyncedIsCareful(s: State, s': State, v: View)
    requires InvAt(s, v) && SyncedAt(s, v)
    ensures Careful(s, s')
  {
    hide Sound, Highest;
    if s.process.Open? { DurableHighest(s.disk, v, |s.disk.files|); }
  }

  lemma ProbedKeepsInv(s: State, s': State, v: View) returns (w: View)
    requires InvAt(s, v) && KeepsDurable(s, v) && SyncedAt(s, v) && ProbedNext(s, s')
    ensures InvAt(s', w) && KeepsDurable(s', w) && SyncedAt(s', w) && w.durable >= v.durable
  {
    hide InvAt, KeepsDurable, Step, PowerLoss, Careful, ReopenProbed, SyncedAt;
    if g :| ReopenProbed(s, s', g) {
      w := ProbedOpens(s, s', g, v);
    } else if Step(s, s') {
      SyncedIsCareful(s, s', v);
      w := StepKeepsInv(s, s', v);
    } else {
      w := CrashKeepsInv(s, s', v);
      assert SyncedAt(s', w) by { CrashSyncs(s, s', w); }
    }
  }

  lemma CrashSyncs(s: State, s': State, w: View)
    requires PowerLoss(s, s')
    ensures SyncedAt(s', w)
  {
  }

  lemma {:induction false} ProbedFrom(t: seq<State>, i: nat, v: View, n: nat) returns (w: View)
    requires ProbedTrace(t) && i <= n < |t| && InvAt(t[i], v) && KeepsDurable(t[i], v) && SyncedAt(t[i], v)
    ensures InvAt(t[n], w) && KeepsDurable(t[n], w) && SyncedAt(t[n], w) && w.durable >= v.durable
  {
    hide InvAt, KeepsDurable, SyncedAt, ProbedNext, Initial;
    if n == i {
      w := v;
    } else {
      var m := n - 1;
      var u := ProbedFrom(t, i, v, m);
      assert ProbedNext(t[m], t[n]);
      w := ProbedKeepsInv(t[m], t[n], u);
    }
  }

  lemma ProbedAt(t: seq<State>, n: nat) returns (v: View)
    requires ProbedTrace(t) && n < |t|
    ensures InvAt(t[n], v) && KeepsDurable(t[n], v) && SyncedAt(t[n], v)
  {
    hide InvAt, KeepsDurable, ProbedNext, Opens;
    var g :| Opens(t[0].disk, g);
    var first := RestView(t[0], g);
    v := ProbedFrom(t, 0, first, n);
  }

  /** If every opening syncs the directory first, every run is careful, whatever it pins. */
  lemma ProbedIsCareful(t: seq<State>, n: nat, s': State)
    requires ProbedTrace(t) && n < |t|
    ensures Careful(t[n], s')
  {
    hide InvAt, KeepsDurable, ProbedTrace, Careful, SyncedAt;
    var v := ProbedAt(t, n);
    SyncedIsCareful(t[n], s', v);
  }

  /** And then nothing durable is ever lost. */
  lemma ProbedRecovers(t: seq<State>, i: nat, n: nat, image: StoreDisk, h: nat)
    requires ProbedTrace(t) && i <= n < |t| && Highest(t[i].disk.durable, h) && CrashImage(t[n].disk, image)
    ensures Recovers(image, h)
  {
    hide InvAt, Sound, CrashImage, ProbedTrace, Highest, Opens;
    var v := ProbedAt(t, i);
    InvIsSound(t[i], v);
    DurableHighest(t[i].disk, v, |t[i].disk.files|);
    HighestUnique(t[i].disk.durable, h, v.durable);
    var w := ProbedFrom(t, i, v, n);
    InvIsSound(t[n], w);
    ImageRecovers(t[n].disk, image, w);
  }
}
