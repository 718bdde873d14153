/** The power-loss campaign: one publication stopped at a cut, and the checker that judges the image found
    after the power loss. */
module PowerLossCampaign {
  import opened Wrappers
  import opened CrashDisk

  datatype Name = OldData | NewData | Manifest | Pending

  datatype Cut =
    | AfterCandidateFileSync
    | AfterPrerequisiteDirectorySync
    | AfterPendingManifestSync
    | AfterManifestRename
    | AfterManifestDirectorySync
    | AfterObsoleteRemove
    | AfterObsoleteDirectorySync

  const CERT_OLD := "CFMD-CERT-OldData-v1"
  const CERT_NEW := "CFMD-CERT-NewData-v1"

  // ----- Preparing a case -----

  function WrittenSynced(d: Disk<Name, string>, name: Name, bytes: string): Disk<Name, string> {
    var inode := |d.files|;
    SyncFile(Write(Create(d, name, ""), inode, bytes), inode)
  }

  class Volume {
    var disk: Disk<Name, string>

    /** Creates the file, which must not exist, writes it and syncs it; not its directory entry. */
    method WriteSynced(name: Name, bytes: string) returns (ok: bool)
      modifies this
      ensures ok <==> name !in Current(old(disk))
      ensures disk == if ok then WrittenSynced(old(disk), name, bytes) else old(disk)
    {
      if name in Current(disk) { return false; }
      var inode := |disk.files|;
      disk := Create(disk, name, "");
      disk := Write(disk, inode, bytes);
      disk := SyncFile(disk, inode);
      ok := true;
    }

    method RenameFile(source: Name, target: Name) returns (ok: bool)
      modifies this
      ensures ok <==> source in Current(old(disk))
      ensures disk == if ok then Rename(old(disk), source, target) else old(disk)
    {
      ok := source in Current(disk);
      if ok { disk := Rename(disk, source, target); }
    }

    method RemoveFile(name: Name) returns (ok: bool)
      modifies this
      ensures ok <==> name in Current(old(disk))
      ensures disk == if ok then Remove(old(disk), name) else old(disk)
    {
      ok := name in Current(disk);
      if ok { disk := Remove(disk, name); }
    }

    method SyncDirectoryEntries()
      modifies this
      ensures disk == SyncDirectory(old(disk))
    {
      disk := SyncDirectory(disk);
    }
  }

  /** The disk at each cut; `before` are the files created before the campaign started. */
  function CaseDisk(before: seq<File<string>>, cut: Cut): Disk<Name, string> {
    var n := |before|;
    var base := before + [File(CERT_OLD, true), File(CERT_OLD, true), File(CERT_NEW, true)];
    var full := base + [File(CERT_NEW, true)];
    match cut
    case AfterCandidateFileSync => Disk(map[OldData := n, Manifest := n + 1], [Bind(NewData, n + 2)], base)
    case AfterPrerequisiteDirectorySync => Disk(map[OldData := n, Manifest := n + 1, NewData := n + 2], [], base)
    case AfterPendingManifestSync => Disk(map[OldData := n, Manifest := n + 1, NewData := n + 2], [Bind(Pending, n + 3)], full)
    case AfterManifestRename =>
      Disk(map[OldData := n, Manifest := n + 1, NewData := n + 2], [Bind(Pending, n + 3), Move(Pending, Manifest, n + 3)], full)
    case AfterManifestDirectorySync => Disk(map[OldData := n, Manifest := n + 3, NewData := n + 2], [], full)
    case AfterObsoleteRemove => Disk(map[OldData := n, Manifest := n + 3, NewData := n + 2], [Unbind(OldData)], full)
    case AfterObsoleteDirectorySync => Disk(map[Manifest := n + 3, NewData := n + 2], [], full)
  }

  lemma CurrentOne<C>(d: Disk<Name, C>, op: DirectoryOp<Name>)
    requires d.ops == [op]
    ensures Current(d) == Apply(d.durable, op)
  {
    CurrentAfter(d.(ops := []), op);
    assert d.(ops := []).(ops := [] + [op]) == d;
  }

  lemma CurrentTwo<C>(d: Disk<Name, C>, first: DirectoryOp<Name>, second: DirectoryOp<Name>)
    requires d.ops == [first, second]
    ensures Current(d) == Apply(Apply(d.durable, first), second)
  {
    var one := d.(ops := [first]);
    CurrentOne(one, first);
    CurrentAfter(one, second);
    assert one.(ops := one.ops + [second]) == d;
  }

  lemma WrittenSyncedIs(d: Disk<Name, string>, name: Name, bytes: string)
    ensures WrittenSynced(d, name, bytes)
         == d.(ops := d.ops + [Bind(name, |d.files|)], files := d.files + [File(bytes, true)])
    ensures Current(WrittenSynced(d, name, bytes)) == Current(d)[name := |d.files|]
  {
    var w := WrittenSynced(d, name, bytes);
    assert w.files == d.files + [File(bytes, true)];
    CurrentAfter(d.(files := w.files), Bind(name, |d.files|));
  }

  /** The durable starting point: an old generation and a manifest for it. */
  function BaseDisk(before: seq<File<string>>): Disk<Name, string> {
    Disk(map[OldData := |before|, Manifest := |before| + 1], [], before + [File(CERT_OLD, true), File(CERT_OLD, true)])
  }

  lemma BaseSteps(d: Disk<Name, string>)
    requires Current(d) == map[]
    ensures Manifest !in Current(WrittenSynced(d, OldData, CERT_OLD))
    ensures SyncDirectory(WrittenSynced(WrittenSynced(d, OldData, CERT_OLD), Manifest, CERT_OLD)) == BaseDisk(d.files)
  {
    hide WrittenSynced, Current;
    var one := WrittenSynced(d, OldData, CERT_OLD);
    WrittenSyncedIs(d, OldData, CERT_OLD);
    WrittenSyncedIs(one, Manifest, CERT_OLD);
    assert d.files + [File(CERT_OLD, true)] + [File(CERT_OLD, true)] == BaseDisk(d.files).files;
  }

  lemma CandidateStep(before: seq<File<string>>)
    ensures NewData !in Current(BaseDisk(before))
    ensures WrittenSynced(BaseDisk(before), NewData, CERT_NEW) == CaseDisk(before, AfterCandidateFileSync)
  {
    WrittenSyncedIs(BaseDisk(before), NewData, CERT_NEW);
    CurrentNone(BaseDisk(before));
  }

  lemma PrerequisiteStep(before: seq<File<string>>)
    ensures SyncDirectory(CaseDisk(before, AfterCandidateFileSync)) == CaseDisk(before, AfterPrerequisiteDirectorySync)
  {
    CurrentOne(CaseDisk(before, AfterCandidateFileSync), Bind(NewData, |before| + 2));
  }

  lemma PendingStep(before: seq<File<string>>)
    ensures Pending !in Current(CaseDisk(before, AfterPrerequisiteDirectorySync))
    ensures WrittenSynced(CaseDisk(before, AfterPrerequisiteDirectorySync), Pending, CERT_NEW) == CaseDisk(before, AfterPendingManifestSync)
  {
    WrittenSyncedIs(CaseDisk(before, AfterPrerequisiteDirectorySync), Pending, CERT_NEW);
    CurrentNone(CaseDisk(before, AfterPrerequisiteDirectorySync));
  }

  lemma RenameStep(before: seq<File<string>>)
    ensures Pending in Current(CaseDisk(before, AfterPendingManifestSync))
    ensures Rename(CaseDisk(before, AfterPendingManifestSync), Pending, Manifest) == CaseDisk(before, AfterManifestRename)
  {
    CurrentOne(CaseDisk(before, AfterPendingManifestSync), Bind(Pending, |before| + 3));
  }

  lemma PublishStep(before: seq<File<string>>)
    ensures SyncDirectory(CaseDisk(before, AfterManifestRename)) == CaseDisk(before, AfterManifestDirectorySync)
  {
    var n := |before|;
    CurrentTwo(CaseDisk(before, AfterManifestRename), Bind(Pending, n + 3), Move(Pending, Manifest, n + 3));
  }

  lemma ObsoleteSteps(before: seq<File<string>>)
    ensures OldData in Current(CaseDisk(before, AfterManifestDirectorySync))
    ensures Remove(CaseDisk(before, AfterManifestDirectorySync), OldData) == CaseDisk(before, AfterObsoleteRemove)
    ensures SyncDirectory(CaseDisk(before, AfterObsoleteRemove)) == CaseDisk(before, AfterObsoleteDirectorySync)
  {
    CurrentNone(CaseDisk(before, AfterManifestDirectorySync));
    CurrentOne(CaseDisk(before, AfterObsoleteRemove), Unbind(OldData));
  }

  /** Runs the publication up to the cut, on a directory that must be empty. No call of it can fail. */
  method Prepare(volume: Volume, cut: Cut) returns (ok: bool)
    modifies volume
    ensures ok <==> Current(old(volume.disk)) == map[]
    ensures volume.disk == if ok then CaseDisk(old(volume.disk).files, cut) else old(volume.disk)
  {
    if Current(volume.disk) != map[] { return false; }
    ghost var before := volume.disk.files;
    BaseSteps(volume.disk);
    ok := volume.WriteSynced(OldData, CERT_OLD);
    if !ok { return; }
    ok := volume.WriteSynced(Manifest, CERT_OLD);
    if !ok { return; }
    volume.SyncDirectoryEntries();
    hide WrittenSynced, Current, CaseDisk, BaseDisk, Rename;
    CandidateStep(before);
    ok := volume.WriteSynced(NewData, CERT_NEW);
    if !ok || cut == AfterCandidateFileSync { return; }
    PrerequisiteStep(before);
    volume.SyncDirectoryEntries();
    if cut == AfterPrerequisiteDirectorySync { return; }
    PendingStep(before);
    ok := volume.WriteSynced(Pending, CERT_NEW);
    if !ok || cut == AfterPendingManifestSync { return; }
    RenameStep(before);
    ok := volume.RenameFile(Pending, Manifest);
    if !ok || cut == AfterManifestRename { return; }
    PublishStep(before);
    volume.SyncDirectoryEntries();
    if cut == AfterManifestDirectorySync { return; }
    ObsoleteSteps(before);
    ok := volume.RemoveFile(OldData);
    if !ok || cut == AfterObsoleteRemove { return; }
    volume.SyncDirectoryEntries();
  }

  // ----- Judging an image -----

  /** What the checker looks at: the manifest's bytes, whether the old payload is there, the new payload's bytes. */
  datatype Observation = Observation(manifest: Option<string>, oldExists: bool, newBytes: Option<string>)

  function Read(d: Disk<Name, string>, name: Name): Option<string> {
    if name in d.durable && d.durable[name] < |d.files| then Some(d.files[d.durable[name]].content) else None
  }

  function Observe(image: Disk<Name, string>): Observation {
    Observation(Read(image, Manifest), OldData in image.durable, Read(image, NewData))
  }

  /** The checker's verdict. */
  predicate Accepts(cut: Cut, o: Observation) {
    if o.manifest.None? then false
    else
      var isOld, isNew := o.manifest.value == CERT_OLD, o.manifest.value == CERT_NEW;
      if !isOld && !isNew then false
      else if isNew && o.newBytes != Some(CERT_NEW) then false
      else
        match cut
        case AfterCandidateFileSync => isOld && o.oldExists
        case AfterPrerequisiteDirectorySync => isOld && o.oldExists && o.newBytes == Some(CERT_NEW)
        case AfterPendingManifestSync => isOld && o.oldExists && o.newBytes == Some(CERT_NEW)
        case AfterManifestRename => o.oldExists && (isOld || isNew)
        case AfterManifestDirectorySync => isNew && o.newBytes == Some(CERT_NEW) && o.oldExists
        case AfterObsoleteRemove => isNew && o.newBytes == Some(CERT_NEW)
        case AfterObsoleteDirectorySync => isNew && o.newBytes == Some(CERT_NEW) && !o.oldExists
  }

  /** Some power loss at the cut leaves an image on which the checker sees `o`. */
  ghost predicate Possible(before: seq<File<string>>, cut: Cut, o: Observation) {
    exists image :: CrashImage(CaseDisk(before, cut), image) && Observe(image) == o
  }

  /** Everything that can be seen at a cut. */
  function Seen(cut: Cut): set<Observation> {
    var was, now := Some(CERT_OLD), Some(CERT_NEW);
    match cut
    case AfterCandidateFileSync => {Observation(was, true, None), Observation(was, true, now)}
    case AfterPrerequisiteDirectorySync => {Observation(was, true, now)}
    case AfterPendingManifestSync => {Observation(was, true, now)}
    case AfterManifestRename => {Observation(was, true, now), Observation(now, true, now)}
    case AfterManifestDirectorySync => {Observation(now, true, now)}
    case AfterObsoleteRemove => {Observation(now, true, now), Observation(now, false, now)}
    case AfterObsoleteDirectorySync => {Observation(now, false, now)}
  }

  lemma SurvivorsOne(dir: Directory<Name>, op: DirectoryOp<Name>, kept: seq<bool>)
    requires |kept| == 1
    ensures Survivors(dir, [op], kept) == if kept[0] then Apply(dir, op) else dir
  {
    assert Survivors(dir, [op][..0], kept[..0]) == dir;
  }

  lemma SurvivorsTwo(dir: Directory<Name>, first: DirectoryOp<Name>, second: DirectoryOp<Name>, kept: seq<bool>)
    requires |kept| == 2
    ensures var one := if kept[0] then Apply(dir, first) else dir;
            Survivors(dir, [first, second], kept) == if kept[1] then Apply(one, second) else one
  {
    assert [first, second][..1] == [first];
    SurvivorsOne(dir, first, kept[..1]);
  }

  /** The directories that can be found at a cut. */
  function Directories(n: nat, cut: Cut): set<Directory<Name>> {
    var unpublished: Directory<Name> := map[OldData := n, Manifest := n + 1, NewData := n + 2];
    var published: Directory<Name> := map[OldData := n, Manifest := n + 3, NewData := n + 2];
    match cut
    case AfterCandidateFileSync => {unpublished - {NewData}, unpublished}
    case AfterPrerequisiteDirectorySync => {unpublished}
    case AfterPendingManifestSync => {unpublished, unpublished[Pending := n + 3]}
    case AfterManifestRename => {unpublished, unpublished[Pending := n + 3], published}
    case AfterManifestDirectorySync => {published}
    case AfterObsoleteRemove => {published, published - {OldData}}
    case AfterObsoleteDirectorySync => {published - {OldData}}
  }

  lemma FoundAfterRename(before: seq<File<string>>, kept: seq<bool>)
    requires |kept| == |CaseDisk(before, AfterManifestRename).ops|
    ensures var d := CaseDisk(before, AfterManifestRename);
            Survivors(d.durable, d.ops, kept) in Directories(|before|, AfterManifestRename)
  {
    hide Survivors;
    var n, d := |before|, CaseDisk(before, AfterManifestRename);
    var bind, move := Bind(Pending, n + 3), Move(Pending, Manifest, n + 3);
    SurvivorsTwo(d.durable, bind, move, kept);
    assert Apply(Apply(d.durable, bind), move) == map[OldData := n, Manifest := n + 3, NewData := n + 2];
    assert Apply(d.durable, move) == map[OldData := n, Manifest := n + 3, NewData := n + 2];
  }

  lemma FoundDirectories(before: seq<File<string>>, cut: Cut, kept: seq<bool>)
    requires |kept| == |CaseDisk(before, cut).ops|
    ensures Survivors(CaseDisk(before, cut).durable, CaseDisk(before, cut).ops, kept) in Directories(|before|, cut)
  {
    hide Survivors;
    var n, d := |before|, CaseDisk(before, cut);
    match cut
    case AfterCandidateFileSync =>
      SurvivorsOne(d.durable, Bind(NewData, n + 2), kept);
      assert d.durable == map[OldData := n, Manifest := n + 1, NewData := n + 2] - {NewData};
    case AfterPrerequisiteDirectorySync => SurvivorsNone(d.durable, kept);
    case AfterPendingManifestSync => SurvivorsOne(d.durable, Bind(Pending, n + 3), kept);
    case AfterManifestRename =>
      FoundAfterRename(before, kept);
    case AfterManifestDirectorySync => SurvivorsNone(d.durable, kept);
    case AfterObsoleteRemove => SurvivorsOne(d.durable, Unbind(OldData), kept);
    case AfterObsoleteDirectorySync =>
      SurvivorsNone(d.durable, kept);
      assert d.durable == map[OldData := n, Manifest := n + 3, NewData := n + 2] - {OldData};
  }

  lemma SurvivorsNone(dir: Directory<Name>, kept: seq<bool>)
    requires |kept| == 0
    ensures Survivors(dir, [], kept) == dir
  {
  }

  lemma SyncedContents(before: seq<File<string>>, cut: Cut, image: Disk<Name, string>)
    requires CrashImage(CaseDisk(before, cut), image)
    ensures var n := |before|;
            && |image.files| >= n + 3
            && image.files[n].content == CERT_OLD && image.files[n + 1].content == CERT_OLD
            && image.files[n + 2].content == CERT_NEW
            && (!cut.AfterCandidateFileSync? && !cut.AfterPrerequisiteDirectorySync? ==>
                  |image.files| >= n + 4 && image.files[n + 3].content == CERT_NEW)
  {
    var n, d := |before|, CaseDisk(before, cut);
    assert d.files[n] == File(CERT_OLD, true) && d.files[n + 1] == File(CERT_OLD, true);
    assert d.files[n + 2] == File(CERT_NEW, true);
    assert |d.files| > n + 3 ==> d.files[n + 3] == File(CERT_NEW, true);
  }

  lemma OnlySeen(before: seq<File<string>>, cut: Cut, image: Disk<Name, string>)
    requires CrashImage(CaseDisk(before, cut), image)
    ensures Observe(image) in Seen(cut)
  {
    var d := CaseDisk(before, cut);
    var kept :| |kept| == |d.ops| && image.durable == Survivors(d.durable, d.ops, kept);
    hide *;
    FoundDirectories(before, cut, kept);
    SyncedContents(before, cut, image);
    SeenIn(|before|, cut, image);
  }

  lemma SeenIn(n: nat, cut: Cut, image: Disk<Name, string>)
    requires image.durable in Directories(n, cut) && |image.files| >= n + 3
    requires image.files[n].content == CERT_OLD && image.files[n + 1].content == CERT_OLD
    requires image.files[n + 2].content == CERT_NEW
    requires !cut.AfterCandidateFileSync? && !cut.AfterPrerequisiteDirectorySync? ==>
               |image.files| >= n + 4 && image.files[n + 3].content == CERT_NEW
    ensures Observe(image) in Seen(cut)
  {
    match cut
    case AfterCandidateFileSync =>
    case AfterPrerequisiteDirectorySync =>
    case AfterPendingManifestSync =>
    case AfterManifestRename =>
    case AfterManifestDirectorySync =>
    case AfterObsoleteRemove =>
    case AfterObsoleteDirectorySync =>
  }

  /** The image in which the chosen operations survived and unsynced files kept what was written. */
  function Imaged(d: Disk<Name, string>, kept: seq<bool>): Disk<Name, string>
    requires |kept| == |d.ops|
  {
    Disk(Survivors(d.durable, d.ops, kept), [], seq(|d.files|, i requires 0 <= i < |d.files| => d.files[i].(synced := true)))
  }

  lemma ImagedIsImage(d: Disk<Name, string>, kept: seq<bool>)
    requires |kept| == |d.ops|
    ensures CrashImage(d, Imaged(d, kept))
  {
    hide Survivors;
    assert Imaged(d, kept).durable == Survivors(d.durable, d.ops, kept);
  }

  /** Which operations survived when `o` is seen. */
  function Survived(cut: Cut, o: Observation): seq<bool> {
    match cut
    case AfterCandidateFileSync => [o.newBytes.Some?]
    case AfterPrerequisiteDirectorySync => []
    case AfterPendingManifestSync => [true]
    case AfterManifestRename => [true, o.manifest == Some(CERT_NEW)]
    case AfterManifestDirectorySync => []
    case AfterObsoleteRemove => [!o.oldExists]
    case AfterObsoleteDirectorySync => []
  }

  lemma AllSeen(before: seq<File<string>>, cut: Cut, o: Observation)
    requires o in Seen(cut)
    ensures Possible(before, cut, o)
  {
    var n, d, kept := |before|, CaseDisk(before, cut), Survived(cut, o);
    var image := Imaged(d, kept);
    ImagedIsImage(d, kept);
    SyncedContents(before, cut, image);
    hide Survivors, CrashImage;
    match cut
    case AfterCandidateFileSync => SurvivorsOne(d.durable, Bind(NewData, n + 2), kept);
    case AfterPrerequisiteDirectorySync => SurvivorsNone(d.durable, kept);
    case AfterPendingManifestSync => SurvivorsOne(d.durable, Bind(Pending, n + 3), kept);
    case AfterManifestRename => SurvivorsTwo(d.durable, Bind(Pending, n + 3), Move(Pending, Manifest, n + 3), kept);
    case AfterManifestDirectorySync => SurvivorsNone(d.durable, kept);
    case AfterObsoleteRemove => SurvivorsOne(d.durable, Unbind(OldData), kept);
    case AfterObsoleteDirectorySync => SurvivorsNone(d.durable, kept);
    assert Observe(image) == o;
  }

  /** The checker accepts every image that a power loss at its cut can leave. */
  lemma AcceptsEveryImage(before: seq<File<string>>, cut: Cut, image: Disk<Name, string>)
    requires CrashImage(CaseDisk(before, cut), image)
    ensures Accepts(cut, Observe(image))
  {
    hide CrashImage, Observe;
    OnlySeen(before, cut, image);
  }

  /** It accepts nothing else, except at two cuts: there an unpublished candidate may hold anything, or be
      missing although its directory entry was synced. */
  lemma AcceptsOnlyImagesIff(before: seq<File<string>>, cut: Cut)
    ensures (forall o :: Accepts(cut, o) ==> Possible(before, cut, o)) <==>
            !cut.AfterCandidateFileSync? && !cut.AfterManifestRename?
  {
    hide Possible;
    if cut.AfterCandidateFileSync? || cut.AfterManifestRename? {
      var torn := Observation(Some(CERT_OLD), true, Some(""));
      assert torn !in Seen(cut);
      NotPossible(before, cut, torn);
      assert Accepts(cut, torn);
    } else {
      forall o | Accepts(cut, o) ensures Possible(before, cut, o) {
        assert o in Seen(cut);
        AllSeen(before, cut, o);
      }
    }
  }

  lemma NotPossible(before: seq<File<string>>, cut: Cut, o: Observation)
    requires o !in Seen(cut)
    ensures !Possible(before, cut, o)
  {
    hide CrashImage, Observe, Seen;
    if image :| CrashImage(CaseDisk(before, cut), image) && Observe(image) == o {
      OnlySeen(before, cut, image);
    }
  }
}
