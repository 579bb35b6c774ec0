/**
 * The values the observers exchange: typed file-system events, directory snapshots and
 * the difference of two snapshots. How snapshots are taken (a directory walk) and how
 * two of them are diffed belong to the snapshot module, which is not part of this model:
 * snapshots and diffs enter as values.
 */
module Events {
  import opened Wrappers

  /** A path, taken as already absolute. */
  type Path = string

  /** The eight event classes: {created, deleted, modified, moved} x {file, directory}. */
  datatype Event =
    | Created(isDirectory: bool, srcPath: Path)
    | Deleted(isDirectory: bool, srcPath: Path)
    | Modified(isDirectory: bool, srcPath: Path)
    | Moved(isDirectory: bool, srcPath: Path, destPath: Path)

  /** The part of a stat result the observers use. */
  datatype StatInfo = StatInfo(inode: nat, isDirectory: bool)

  /**
   * A directory snapshot: the stat information of every walked path and the inverse
   * inode -> path map that move detection uses.
   */
  datatype Snapshot = Snapshot(statInfo: map<Path, StatInfo>, pathForInode: map<nat, Path>)
  {
    /** The inverse map points back at a path with that inode, and covers every inode. */
    ghost predicate Valid()
    {
      && (forall ino :: ino in pathForInode ==>
            pathForInode[ino] in statInfo && statInfo[pathForInode[ino]].inode == ino)
      && (forall p :: p in statInfo ==> statInfo[p].inode in pathForInode)
    }

    /** `stat_info(path)`; `None` stands for the KeyError it raises for an unknown path. */
    function StatInfoOf(path: Path): (r: Option<StatInfo>)
      ensures r.Some? <==> path in statInfo
    {
      if path in statInfo then Some(statInfo[path]) else None
    }

    /** `path_for_inode(inode)`; `None` stands for KeyError. */
    function PathForInode(inode: nat): (r: Option<Path>)
      requires Valid()
      ensures r.Some? <==> exists p :: p in statInfo && statInfo[p].inode == inode
      ensures r.Some? ==> r.value in statInfo && statInfo[r.value].inode == inode
    {
      if inode in pathForInode then Some(pathForInode[inode]) else None
    }
  }

  /** The result of `new_snapshot - old_snapshot`: eight collections in iteration order. */
  datatype SnapshotDiff = SnapshotDiff(
    filesCreated: seq<Path>,
    filesDeleted: seq<Path>,
    filesModified: seq<Path>,
    filesMoved: seq<(Path, Path)>,
    dirsCreated: seq<Path>,
    dirsDeleted: seq<Path>,
    dirsModified: seq<Path>,
    dirsMoved: seq<(Path, Path)>)
}
