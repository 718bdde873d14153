/** A directory on a disk that can lose power: file contents are certain once the file is synced, directory
    operations once the directory is. Until then each operation may or may not have reached the disk; a rename
    is one operation. */
module CrashDisk {
  /** What the inode holds, and whether it was synced since it was last written. */
  datatype File<C> = File(content: C, synced: bool)

  type Directory<N(==)> = map<N, nat>

  datatype DirectoryOp<N> =
    | Bind(name: N, inode: nat)
    | Move(source: N, target: N, inode: nat)
    | Unbind(name: N)

  /** `durable` is the directory as of the last directory sync, `ops` what happened since; inodes number the
      files ever created. */
  datatype Disk<N(==), C> = Disk(durable: Directory<N>, ops: seq<DirectoryOp<N>>, files: seq<File<C>>)

  function Apply<N(==)>(dir: Directory<N>, op: DirectoryOp<N>): Directory<N> {
    match op
    case Bind(name, inode) => dir[name := inode]
    case Move(source, target, inode) => (dir - {source})[target := inode]
    case Unbind(name) => dir - {name}
  }

  /** The directory in which exactly the operations marked `true` happened. */
  function Survivors<N(==)>(dir: Directory<N>, ops: seq<DirectoryOp<N>>, kept: seq<bool>): Directory<N>
    requires |kept| == |ops|
  {
    if ops == [] then dir
    else
      var n := |ops| - 1;
      var before := Survivors(dir, ops[..n], kept[..n]);
      if kept[n] then Apply(before, ops[n]) else before
  }

  function AllKept(n: nat): (kept: seq<bool>)
    ensures |kept| == n && forall i | 0 <= i < n :: kept[i]
  {
    seq(n, i => true)
  }

  /** The directory as the running system sees it. */
  function Current<N(==), C>(d: Disk<N, C>): Directory<N> {
    Survivors(d.durable, d.ops, AllKept(|d.ops|))
  }

  /** `image` is what may be found on the disk after power is lost. */
  ghost predicate CrashImage<N, C>(d: Disk<N, C>, image: Disk<N, C>) {
    && image.ops == []
    && (exists kept :: |kept| == |d.ops| && image.durable == Survivors(d.durable, d.ops, kept))
    && |image.files| == |d.files|
    && (forall i | 0 <= i < |d.files| :: image.files[i].synced)
    && (forall i | 0 <= i < |d.files| && d.files[i].synced :: image.files[i] == d.files[i])
  }

  // ----- System calls -----

  function Create<N(==), C>(d: Disk<N, C>, name: N, content: C): Disk<N, C> {
    d.(ops := d.ops + [Bind(name, |d.files|)], files := d.files + [File(content, false)])
  }

  function Write<N(==), C>(d: Disk<N, C>, inode: nat, content: C): Disk<N, C>
    requires inode < |d.files|
  {
    d.(files := d.files[inode := File(content, false)])
  }

  function SyncFile<N(==), C>(d: Disk<N, C>, inode: nat): Disk<N, C>
    requires inode < |d.files|
  {
    d.(files := d.files[inode := d.files[inode].(synced := true)])
  }

  function Rename<N(==), C>(d: Disk<N, C>, source: N, target: N): Disk<N, C>
    requires source in Current(d)
  {
    d.(ops := d.ops + [Move(source, target, Current(d)[source])])
  }

  function Remove<N(==), C>(d: Disk<N, C>, name: N): Disk<N, C> {
    d.(ops := d.ops + [Unbind(name)])
  }

  function SyncDirectory<N(==), C>(d: Disk<N, C>): Disk<N, C> {
    d.(durable := Current(d), ops := [])
  }

  // ----- What survives -----

  lemma CurrentNone<N, C>(d: Disk<N, C>)
    requires d.ops == []
    ensures Current(d) == d.durable
  {
  }

  lemma CurrentAfter<N, C>(d: Disk<N, C>, op: DirectoryOp<N>)
    ensures Current(d.(ops := d.ops + [op])) == Apply(Current(d), op)
  {
    var n := |d.ops|;
    assert (d.ops + [op])[..n] == d.ops;
    assert AllKept(n + 1)[..n] == AllKept(n);
  }

  /** What no pending operation touches stays as it durably is, in every image. */
  lemma {:induction false} Untouched<N>(dir: Directory<N>, ops: seq<DirectoryOp<N>>, kept: seq<bool>, name: N)
    requires |kept| == |ops|
    requires forall op | op in ops :: op.Move? ==> op.source != name && op.target != name
    requires forall op | op in ops :: !op.Move? ==> op.name != name
    ensures name in Survivors(dir, ops, kept) <==> name in dir
    ensures name in dir ==> Survivors(dir, ops, kept)[name] == dir[name]
  {
    if ops != [] {
      var n := |ops| - 1;
      assert forall op | op in ops[..n] :: op in ops;
      assert ops[n] in ops;
      Untouched(dir, ops[..n], kept[..n], name);
    }
  }

  /** A name that is only ever a rename target stays bound, to its durable inode or to one that was moved. */
  lemma {:induction false} MoveTarget<N>(dir: Directory<N>, ops: seq<DirectoryOp<N>>, kept: seq<bool>, name: N)
    requires |kept| == |ops| && name in dir
    requires forall op | op in ops :: op.Move? ==> op.source != name
    requires forall op | op in ops :: !op.Move? ==> op.name != name
    ensures name in Survivors(dir, ops, kept)
    ensures var inode := Survivors(dir, ops, kept)[name];
            inode == dir[name] || exists op :: op in ops && op.Move? && op.target == name && op.inode == inode
  {
    if ops != [] {
      var n := |ops| - 1;
      assert forall op | op in ops[..n] :: op in ops;
      assert ops[n] in ops;
      MoveTarget(dir, ops[..n], kept[..n], name);
    }
  }
}
