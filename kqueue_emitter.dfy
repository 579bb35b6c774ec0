/**
 * The kqueue emitter's bookkeeping: how one kevent is classified, how queuing an event keeps
 * the descriptor set in step with the tree, how a batch of kevents is scanned, and how
 * deferred directory writes and renames are resolved against two snapshots.
 *
 * The OS enters as values: `open(p)` is what opening `p` would do at that moment, and a
 * kevent's `ident` is the fd the OS reports.
 */
module Kqueue {
  import opened Wrappers
  import opened Events
  import opened KqueueFlags
  import opened KqueueDescriptors
  import opened ObserverApi

  /* ----- Classification of one kevent ----- */

  /** What one kevent asks of the emitter. */
  datatype Action =
    | QueueNow(event: Event)
    | DeferDirModified(path: Path)
    | DeferRenamed(isDirectory: bool, path: Path)
    | NoAction

  /**
   * The branch chain in `_queue_events_except_renames_and_dir_modifications`: delete wins
   * over attrib, attrib over write/extend, write/extend over rename. A write on a directory
   * is deferred, a write on a file is queued as a modification.
   */
  function Classify(kev: Kevent, d: KeventDescriptor): (a: Action)
    ensures a.QueueNow? ==> a.event.srcPath == d.path && a.event.isDirectory == d.isDirectory
    ensures a.QueueNow? ==> a.event.Deleted? || a.event.Modified?
    ensures (a.QueueNow? && a.event.Deleted?) <==> IsDeleted(kev.fflags)
    ensures a.DeferDirModified? ==> a.path == d.path && d.isDirectory && IsModified(kev.fflags)
    ensures a.QueueNow? && a.event.Modified? ==>
      !IsDeleted(kev.fflags) && (IsAttribModified(kev.fflags) || (IsModified(kev.fflags) && !d.isDirectory))
    ensures a.DeferRenamed? ==> a == DeferRenamed(d.isDirectory, d.path) && IsRenamed(kev.fflags)
    ensures a.DeferRenamed? <==>
      !IsDeleted(kev.fflags) && !IsAttribModified(kev.fflags) && !IsModified(kev.fflags) && IsRenamed(kev.fflags)
    ensures a == NoAction <==>
      !IsDeleted(kev.fflags) && !IsAttribModified(kev.fflags) && !IsModified(kev.fflags) && !IsRenamed(kev.fflags)
  {
    if IsDeleted(kev.fflags) then QueueNow(Deleted(d.isDirectory, d.path))
    else if IsAttribModified(kev.fflags) then QueueNow(Modified(d.isDirectory, d.path))
    else if IsModified(kev.fflags) then
      if d.isDirectory then DeferDirModified(d.path) else QueueNow(Modified(false, d.path))
    else if IsRenamed(kev.fflags) then DeferRenamed(d.isDirectory, d.path)
    else NoAction
  }

  /** Whatever else is set, a delete bit makes the kevent a deletion. */
  lemma DeleteTakesPriority(kev: Kevent, d: KeventDescriptor)
    ensures Classify(kev.(fflags := kev.fflags | KQ_NOTE_DELETE), d) == QueueNow(Deleted(d.isDirectory, d.path))
  {
  }

  /** Without a delete bit, an attrib bit makes the kevent a modification of the path itself. */
  lemma AttribBeatsWriteAndRename(kev: Kevent, d: KeventDescriptor)
    requires !IsDeleted(kev.fflags)
    ensures Classify(kev.(fflags := kev.fflags | KQ_NOTE_ATTRIB), d) == QueueNow(Modified(d.isDirectory, d.path))
  {
  }

  /** A write or extend on a directory is never queued directly; on a file it is. */
  lemma DirectoryWritesAreDeferred(kev: Kevent, d: KeventDescriptor)
    requires IsModified(kev.fflags) && !IsDeleted(kev.fflags) && !IsAttribModified(kev.fflags)
    ensures d.isDirectory ==> Classify(kev, d) == DeferDirModified(d.path)
    ensures !d.isDirectory ==> Classify(kev, d) == QueueNow(Modified(false, d.path))
  {
  }

  /** A rename bit counts only when no delete, attrib or write/extend bit is set; it is then deferred. */
  lemma RenameIsLastResort(kev: Kevent, d: KeventDescriptor)
    requires IsRenamed(kev.fflags)
    requires !IsDeleted(kev.fflags) && !IsAttribModified(kev.fflags) && !IsModified(kev.fflags)
    ensures Classify(kev, d) == DeferRenamed(d.isDirectory, d.path)
  {
  }

  /** A kevent carrying only LINK and REVOKE bits yields nothing. */
  lemma LinkAndRevokeAreIgnored(kev: Kevent, d: KeventDescriptor)
    requires kev.fflags & !(KQ_NOTE_LINK | KQ_NOTE_REVOKE) == 0
    ensures Classify(kev, d) == NoAction
  {
  }

  /* ----- Effect of queuing events on the registered paths ----- */

  /**
   * `_register_kevent` on the registered paths (path -> is-directory): a registered path
   * stays as it is without an open; a successful open registers it; ENOENT is swallowed;
   * any other error propagates.
   */
  function Register(reg: map<Path, bool>, path: Path, isDirectory: bool, open: OpenResult)
    : (r: (Outcome<int>, map<Path, bool>))
    ensures r.0.Pass? <==> path in reg || open.Opened? || open == OpenFailed(ENOENT)
    ensures r.0.Fail? ==> r.0.error == open.errno && r.1 == reg
    ensures path in r.1 <==> path in reg || open.Opened?
    ensures forall p :: p != path ==> (p in r.1 <==> p in reg)
    ensures forall p :: p in reg ==> p in r.1 && r.1[p] == reg[p]
  {
    if path in reg then (Pass, reg)
    else match open
      case Opened => (Pass, reg[path := isDirectory])
      case OpenFailed(errno) => if errno == ENOENT then (Pass, reg) else (Fail(errno), reg)
  }

  /**
   * What `queue_event` does to the registered paths after it has enqueued the event: a
   * creation registers the source, a move unregisters the source and registers the
   * destination, a deletion unregisters the source, a modification changes nothing.
   */
  function AfterEvent(reg: map<Path, bool>, e: Event, open: Path -> OpenResult): (r: (Outcome<int>, map<Path, bool>))
  {
    match e
    case Created(isDirectory, src) => Register(reg, src, isDirectory, open(src))
    case Moved(isDirectory, src, dest) => Register(reg - {src}, dest, isDirectory, open(dest))
    case Deleted(_, src) => (Pass, reg - {src})
    case Modified(_, _) => (Pass, reg)
  }

  /** The registrations each kind of event leaves behind. */
  lemma AfterEventRegistrations(reg: map<Path, bool>, e: Event, open: Path -> OpenResult)
    ensures var (o, reg') := AfterEvent(reg, e, open);
      && (e.Created? && o.Pass? ==> (e.srcPath in reg' <==> e.srcPath in reg || open(e.srcPath).Opened?))
      && (e.Moved? && o.Pass? ==>
            (e.destPath in reg' <==> open(e.destPath).Opened? || (e.destPath in reg && e.destPath != e.srcPath)))
      && (e.Moved? && e.srcPath != e.destPath ==> e.srcPath !in reg')
      && (e.Deleted? ==> o.Pass? && reg' == reg - {e.srcPath})
      && (e.Modified? ==> o.Pass? && reg' == reg)
      && (o.Fail? ==> (e.Created? || e.Moved?) && open(if e.Created? then e.srcPath else e.destPath).OpenFailed?)
  {
  }

  /** The outcome of queuing events one by one until one raises. */
  datatype Run = Run(outcome: Outcome<int>, registry: map<Path, bool>, queuedCount: nat)

  /** Queue `events` in order; the event whose registration raises is already on the queue. */
  function AfterEvents(reg: map<Path, bool>, events: seq<Event>, open: Path -> OpenResult): (r: Run)
    ensures r.queuedCount <= |events|
    ensures r.outcome.Pass? ==> r.queuedCount == |events|
    ensures r.outcome.Fail? ==> r.queuedCount >= 1
    decreases |events|
  {
    if events == [] then Run(Pass, reg, 0)
    else
      var prev := AfterEvents(reg, events[..|events| - 1], open);
      if prev.outcome.Fail? then prev
      else
        var (o, reg') := AfterEvent(prev.registry, events[|events| - 1], open);
        Run(o, reg', prev.queuedCount + 1)
  }

  /** Events that register nothing (deletions and modifications) can never raise. */
  lemma {:induction false} UnregisteringEventsNeverFail(reg: map<Path, bool>, events: seq<Event>,
                                                        open: Path -> OpenResult)
    requires forall i :: 0 <= i < |events| ==> events[i].Deleted? || events[i].Modified?
    ensures AfterEvents(reg, events, open).outcome == Pass
    ensures AfterEvents(reg, events, open).registry.Keys <= reg.Keys
    decreases |events|
  {
    if events != [] {
      UnregisteringEventsNeverFail(reg, events[..|events| - 1], open);
    }
  }

  /* ----- Scanning a batch of kevents ----- */

  /**
   * Where the scan of a kevent batch stands: the events queued so far, the three deferred
   * sets, the fd map as queuing has left it, and whether a kevent named an unknown fd.
   */
  datatype Scan = Scan(
    events: seq<Event>,
    filesRenamed: set<Path>,
    dirsRenamed: set<Path>,
    dirsModified: set<Path>,
    byFd: map<nat, KeventDescriptor>,
    keyError: bool)

  /** One kevent: an unknown fd raises KeyError; a queued deletion unregisters its path. */
  function ScanStep(s: Scan, kev: Kevent): Scan
  {
    if kev.ident !in s.byFd then s.(keyError := true)
    else
      var d := s.byFd[kev.ident];
      match Classify(kev, d)
      case QueueNow(e) =>
        s.(events := s.events + [e], byFd := if e.Deleted? then WithoutPath(s.byFd, d.path) else s.byFd)
      case DeferDirModified(p) => s.(dirsModified := s.dirsModified + {p})
      case DeferRenamed(isDirectory, p) =>
        if isDirectory then s.(dirsRenamed := s.dirsRenamed + {p}) else s.(filesRenamed := s.filesRenamed + {p})
      case NoAction => s
  }

  /** The scan of `kevs` from fd map `byFd`; it stops at the first KeyError. */
  function ScanAll(kevs: seq<Kevent>, byFd: map<nat, KeventDescriptor>): Scan
    decreases |kevs|
  {
    if kevs == [] then Scan([], {}, {}, {}, byFd, false)
    else
      var prev := ScanAll(kevs[..|kevs| - 1], byFd);
      if prev.keyError then prev else ScanStep(prev, kevs[|kevs| - 1])
  }

  /** `m` keeps some of the entries of `byFd`, unchanged. */
  predicate SubMap(m: map<nat, KeventDescriptor>, byFd: map<nat, KeventDescriptor>)
  {
    forall fd :: fd in m ==> fd in byFd && m[fd] == byFd[fd]
  }

  /** The paths of the descriptors of an fd map that are (or are not) directories. */
  function PathsOf(byFd: map<nat, KeventDescriptor>, isDirectory: bool): set<Path>
  {
    set fd | fd in byFd && byFd[fd].isDirectory == isDirectory :: byFd[fd].path
  }

  /**
   * What a scan produces: only deletions and modifications are queued, each for a watched
   * path of the right kind; the deferred sets hold only watched paths of the right kind;
   * queuing only ever drops descriptors; a deleted path is no longer in the fd map; and at
   * most one thing is produced per kevent.
   */
  lemma {:induction false} ScanFacts(kevs: seq<Kevent>, byFd: map<nat, KeventDescriptor>)
    ensures var s := ScanAll(kevs, byFd);
      && SubMap(s.byFd, byFd)
      && (forall i :: 0 <= i < |s.events| ==> s.events[i].Deleted? || s.events[i].Modified?)
      && (forall i :: 0 <= i < |s.events| ==> s.events[i].srcPath in PathsOf(byFd, s.events[i].isDirectory))
      && (forall i :: 0 <= i < |s.events| && s.events[i].Deleted? ==>
            forall fd :: fd in s.byFd ==> s.byFd[fd].path != s.events[i].srcPath)
      && s.dirsModified <= PathsOf(byFd, true)
      && s.dirsRenamed <= PathsOf(byFd, true)
      && s.filesRenamed <= PathsOf(byFd, false)
      && |s.events| + |s.filesRenamed| + |s.dirsRenamed| + |s.dirsModified| <= |kevs|
    decreases |kevs|
  {
    if kevs != [] {
      var kev := kevs[|kevs| - 1];
      ScanFacts(kevs[..|kevs| - 1], byFd);
      var prev := ScanAll(kevs[..|kevs| - 1], byFd);
      if !prev.keyError && kev.ident in prev.byFd {
        var d := prev.byFd[kev.ident];
        assert d.path in PathsOf(byFd, d.isDirectory) by {
          assert kev.ident in byFd && byFd[kev.ident] == d;
        }
      }
    }
  }

  /** Once a kevent names an unknown fd, nothing after it is looked at. */
  lemma {:induction false} KeyErrorStopsTheScan(kevs: seq<Kevent>, more: seq<Kevent>, byFd: map<nat, KeventDescriptor>)
    requires ScanAll(kevs, byFd).keyError
    ensures ScanAll(kevs + more, byFd) == ScanAll(kevs, byFd)
    decreases |more|
  {
    if more != [] {
      var all := kevs + more;
      assert all[..|all| - 1] == kevs + more[..|more| - 1];
      KeyErrorStopsTheScan(kevs, more[..|more| - 1], byFd);
      assert ScanAll(all[..|all| - 1], byFd).keyError;
    } else {
      assert kevs + more == kevs;
    }
  }

  /* ----- Deferred directory writes and renames ----- */

  /**
   * `_queue_dirs_modified` for the deferred directories in iteration order `dirs`: nothing
   * when there are none, else a DirModified per directory, then FileCreated and
   * DirCreated for what the diff of the two snapshots created.
   */
  function DirsModifiedEvents(dirs: seq<Path>, diff: SnapshotDiff): (r: seq<Event>)
    ensures dirs == [] ==> r == []
    ensures dirs != [] ==> |r| == |dirs| + |diff.filesCreated| + |diff.dirsCreated|
    ensures forall i :: 0 <= i < |r| ==> r[i].Modified? || r[i].Created?
    ensures forall i :: 0 <= i < |dirs| ==> r[i] == Modified(true, dirs[i])
    ensures dirs != [] ==>
      && (forall i :: 0 <= i < |diff.filesCreated| ==> r[|dirs| + i] == Created(false, diff.filesCreated[i]))
      && (forall i :: 0 <= i < |diff.dirsCreated| ==>
            r[|dirs| + |diff.filesCreated| + i] == Created(true, diff.dirsCreated[i]))
  {
    if dirs == [] then []
    else
      seq(|dirs|, i requires 0 <= i < |dirs| => Modified(true, dirs[i]))
      + seq(|diff.filesCreated|, i requires 0 <= i < |diff.filesCreated| => Created(false, diff.filesCreated[i]))
      + seq(|diff.dirsCreated|, i requires 0 <= i < |diff.dirsCreated| => Created(true, diff.dirsCreated[i]))
  }

  /**
   * `_queue_renamed`: a source unknown to the reference snapshot becomes a creation and a
   * deletion; a source whose inode the new snapshot still has becomes a move there,
   * preceded by the sub-moves of a directory under a recursive watch; otherwise a deletion.
   * `subMoved(src, dest)` stands for `DirMovedEvent(src, dest).sub_moved_events()`.
   */
  function RenameEvents(src: Path, isDirectory: bool, recursive: bool, refSnapshot: Snapshot, newSnapshot: Snapshot,
                        subMoved: (Path, Path) -> seq<Event>): seq<Event>
  {
    match refSnapshot.StatInfoOf(src)
    case None => [Created(isDirectory, src), Deleted(isDirectory, src)]
    case Some(info) =>
      if info.inode in newSnapshot.pathForInode then
        var dest := newSnapshot.pathForInode[info.inode];
        (if isDirectory && recursive then subMoved(src, dest) else []) + [Moved(isDirectory, src, dest)]
      else [Deleted(isDirectory, src)]
  }

  /**
   * The three outcomes of a rename: the last event is a move to the path that now has the
   * source's inode, or a deletion when no path has it, or the source is unknown and a
   * creation precedes its deletion.
   */
  lemma RenameOutcomes(src: Path, isDirectory: bool, recursive: bool, refSnapshot: Snapshot, newSnapshot: Snapshot,
                       subMoved: (Path, Path) -> seq<Event>)
    requires newSnapshot.Valid()
    ensures var r := RenameEvents(src, isDirectory, recursive, refSnapshot, newSnapshot, subMoved);
      && |r| >= 1
      && (src !in refSnapshot.statInfo ==> r == [Created(isDirectory, src), Deleted(isDirectory, src)])
      && (src in refSnapshot.statInfo ==>
            var ino := refSnapshot.statInfo[src].inode;
            && (r[|r| - 1].Moved? <==> exists p :: p in newSnapshot.statInfo && newSnapshot.statInfo[p].inode == ino)
            && (r[|r| - 1].Moved? ==>
                  && r[|r| - 1].srcPath == src && r[|r| - 1].isDirectory == isDirectory
                  && r[|r| - 1].destPath in newSnapshot.statInfo && newSnapshot.statInfo[r[|r| - 1].destPath].inode == ino
                  && (!(isDirectory && recursive) ==> |r| == 1))
            && (!r[|r| - 1].Moved? ==> r == [Deleted(isDirectory, src)]))
  {
    var r := RenameEvents(src, isDirectory, recursive, refSnapshot, newSnapshot, subMoved);
    if src in refSnapshot.statInfo {
      var ino := refSnapshot.statInfo[src].inode;
      if ino in newSnapshot.pathForInode {
        var dest := newSnapshot.pathForInode[ino];
        assert dest in newSnapshot.statInfo && newSnapshot.statInfo[dest].inode == ino;
      }
    }
  }

  /* ----- The emitter ----- */

  class KqueueEmitter {
    const watch: ObservedWatch
    const descriptors: KeventDescriptorSet
    /** Every `(event, watch)` pair put on the event queue, in order. */
    var queued: seq<QueuedItem>

    ghost predicate Valid()
      reads this, descriptors
    {
      descriptors.Valid()
    }

    /** The paths with a kevent registered, each with whether it is a directory. */
    function Registered(): map<Path, bool>
      reads this, descriptors
    {
      descriptors.Registered()
    }

    /** An emitter for `watch` with no descriptors and nothing queued. */
    constructor (watch: ObservedWatch)
      ensures Valid() && fresh(descriptors)
      ensures this.watch == watch && queued == [] && Registered() == map[]
    {
      this.watch := watch;
      descriptors := new KeventDescriptorSet();
      queued := [];
    }

    /** `_register_kevent`. */
    method RegisterKevent(path: Path, isDirectory: bool, open: OpenResult) returns (r: Outcome<int>)
      requires Valid()
      modifies descriptors
      ensures Valid()
      ensures (r, Registered()) == Register(old(Registered()), path, isDirectory, open)
      ensures r.Fail? || !(path !in old(Registered()) && open.Opened?) ==> descriptors.state == old(descriptors.state)
    {
      r := descriptors.Add(path, isDirectory, open);
      if r.Fail? && r.error == ENOENT {
        r := Pass;
      }
    }

    /** `_unregister_kevent`. */
    method UnregisterKevent(path: Path)
      requires Valid()
      modifies descriptors
      ensures Valid()
      ensures Registered() == old(Registered()) - {path}
      ensures descriptors.state.descriptorForFd == WithoutPath(old(descriptors.state.descriptorForFd), path)
    {
      descriptors.Remove(path);
    }

    /**
     * `queue_event`: the event is put on the queue first, whatever the registration that
     * follows does.
     */
    method QueueEvent(e: Event, open: Path -> OpenResult) returns (r: Outcome<int>)
      requires Valid()
      modifies this, descriptors
      ensures Valid()
      ensures queued == old(queued) + [QueuedItem(e, watch)]
      ensures (r, Registered()) == AfterEvent(old(Registered()), e, open)
      ensures e.Deleted? ==>
        descriptors.state.descriptorForFd == WithoutPath(old(descriptors.state.descriptorForFd), e.srcPath)
      ensures e.Modified? ==> descriptors.state == old(descriptors.state)
    {
      queued := queued + [QueuedItem(e, watch)];
      match e {
        case Created(isDirectory, src) =>
          r := RegisterKevent(src, isDirectory, open(src));
        case Moved(isDirectory, src, dest) =>
          UnregisterKevent(src);
          r := RegisterKevent(dest, isDirectory, open(dest));
        case Deleted(_, src) =>
          UnregisterKevent(src);
          r := Pass;
        case Modified(_, _) =>
          r := Pass;
      }
    }

    /** `queue_event` on each of `events` in turn; an error ends the sequence. */
    method QueueEach(events: seq<Event>, open: Path -> OpenResult) returns (r: Outcome<int>)
      requires Valid()
      modifies this, descriptors
      ensures Valid()
      ensures var run := AfterEvents(old(Registered()), events, open);
        && r == run.outcome
        && Registered() == run.registry
        && queued == old(queued) + Items(events[..run.queuedCount], watch)
    {
      var i := 0;
      r := Pass;
      while i < |events| && r.Pass?
        invariant 0 <= i <= |events|
        invariant Valid()
        invariant var run := AfterEvents(old(Registered()), events[..i], open);
          && r == run.outcome && Registered() == run.registry && run.queuedCount == i
          && queued == old(queued) + Items(events[..i], watch)
      {
        assert events[..i + 1][..i] == events[..i];
        r := QueueEvent(events[i], open);
        assert Items(events[..i + 1], watch) == Items(events[..i], watch) + [QueuedItem(events[i], watch)];
        i := i + 1;
      }
      if i < |events| {
        KeepFailedRun(old(Registered()), events, i, open);
      }
      assert events[..|events|] == events;
    }

    /**
     * One pass of the loop in `_queue_events_except_renames_and_dir_modifications`: look up
     * the kevent's descriptor (KeyError when its fd is gone), then queue the deletion or
     * modification it stands for or add its path to one of the three deferred sets.
     */
    method ScanKevent(kev: Kevent, open: Path -> OpenResult, ghost s: Scan, ghost before: seq<QueuedItem>,
                      filesRenamed: set<Path>, dirsRenamed: set<Path>, dirsModified: set<Path>)
      returns (found: bool, filesRenamed': set<Path>, dirsRenamed': set<Path>, dirsModified': set<Path>)
      requires Valid() && !s.keyError
      requires descriptors.state.descriptorForFd == s.byFd && queued == before + Items(s.events, watch)
      requires filesRenamed == s.filesRenamed && dirsRenamed == s.dirsRenamed && dirsModified == s.dirsModified
      modifies this, descriptors
      ensures Valid()
      ensures var s' := ScanStep(s, kev);
        && (found <==> !s'.keyError)
        && descriptors.state.descriptorForFd == s'.byFd && queued == before + Items(s'.events, watch)
        && (found ==> filesRenamed' == s'.filesRenamed && dirsRenamed' == s'.dirsRenamed && dirsModified' == s'.dirsModified)
    {
      filesRenamed', dirsRenamed', dirsModified' := filesRenamed, dirsRenamed, dirsModified;
      var descriptor := descriptors.GetForFd(kev.ident);
      found := descriptor.Some?;
      if !found {
        return;
      }
      var d := descriptor.value;
      match Classify(kev, d) {
        case QueueNow(e) =>
          var _ := QueueEvent(e, open);
          assert Items(s.events + [e], watch) == Items(s.events, watch) + [QueuedItem(e, watch)];
        case DeferDirModified(p) =>
          dirsModified' := dirsModified + {p};
        case DeferRenamed(isDirectory, p) =>
          if isDirectory {
            dirsRenamed' := dirsRenamed + {p};
          } else {
            filesRenamed' := filesRenamed + {p};
          }
        case NoAction =>
      }
    }

    /**
     * `_queue_events_except_renames_and_dir_modifications`: deletions and file
     * modifications are queued at once, directory writes and renames are collected into
     * the three sets it returns. A kevent for an fd no longer in the set raises KeyError
     * and ends the scan, with what was queued before it left on the queue.
     */
    method QueueEventsExceptRenamesAndDirModifications(eventList: seq<Kevent>, open: Path -> OpenResult)
      returns (r: Outcome<Error>, filesRenamed: set<Path>, dirsRenamed: set<Path>, dirsModified: set<Path>)
      requires Valid()
      modifies this, descriptors
      ensures Valid()
      ensures var s := ScanAll(eventList, old(descriptors.state.descriptorForFd));
        && (r.Fail? <==> s.keyError)
        && (r.Fail? ==> r.error == KeyError)
        && queued == old(queued) + Items(s.events, watch)
        && descriptors.state.descriptorForFd == s.byFd
        && (r.Pass? ==> filesRenamed == s.filesRenamed && dirsRenamed == s.dirsRenamed && dirsModified == s.dirsModified)
    {
      ghost var byFd := descriptors.state.descriptorForFd;
      filesRenamed, dirsRenamed, dirsModified := {}, {}, {};
      r := Pass;
      var i := 0;
      while i < |eventList| && r.Pass?
        invariant 0 <= i <= |eventList|
        invariant Valid()
        invariant var s := ScanAll(eventList[..i], byFd);
          && (r.Fail? <==> s.keyError) && (r.Fail? ==> r.error == KeyError)
          && queued == old(queued) + Items(s.events, watch)
          && descriptors.state.descriptorForFd == s.byFd
          && (r.Pass? ==> filesRenamed == s.filesRenamed && dirsRenamed == s.dirsRenamed && dirsModified == s.dirsModified)
      {
        assert eventList[..i + 1][..i] == eventList[..i];
        var found;
        found, filesRenamed, dirsRenamed, dirsModified :=
          ScanKevent(eventList[i], open, ScanAll(eventList[..i], byFd), old(queued), filesRenamed, dirsRenamed, dirsModified);
        if !found {
          r := Fail(KeyError);
        }
        i := i + 1;
      }
      if i < |eventList| {
        KeyErrorStopsTheScan(eventList[..i], eventList[i..], byFd);
        assert eventList[..i] + eventList[i..] == eventList;
      }
      assert eventList[..|eventList|] == eventList;
    }

    /**
     * `_queue_dirs_modified(dirs_modified, ref_snapshot, new_snapshot)` with the diff
     * `new_snapshot - ref_snapshot` given as a value. The set is walked in some order,
     * returned as `dirs`.
     */
    method QueueDirsModified(dirsModified: set<Path>, diff: SnapshotDiff, open: Path -> OpenResult)
      returns (r: Outcome<int>, dirs: seq<Path>)
      requires Valid()
      modifies this, descriptors
      ensures Valid()
      ensures |dirs| == |dirsModified| && (forall p :: p in dirs <==> p in dirsModified)
      ensures var run := AfterEvents(old(Registered()), DirsModifiedEvents(dirs, diff), open);
        && r == run.outcome
        && Registered() == run.registry
        && queued == old(queued) + Items(DirsModifiedEvents(dirs, diff)[..run.queuedCount], watch)
    {
      dirs := [];
      var rest := dirsModified;
      while rest != {}
        invariant rest <= dirsModified
        invariant |dirs| + |rest| == |dirsModified|
        invariant forall p :: p in dirs <==> p in dirsModified && p !in rest
        decreases rest
      {
        var p :| p in rest;
        dirs := dirs + [p];
        rest := rest - {p};
      }
      r := QueueEach(DirsModifiedEvents(dirs, diff), open);
    }

    /** `_queue_renamed`. */
    method QueueRenamed(src: Path, isDirectory: bool, refSnapshot: Snapshot, newSnapshot: Snapshot,
                        subMoved: (Path, Path) -> seq<Event>, open: Path -> OpenResult)
      returns (r: Outcome<int>)
      requires Valid()
      modifies this, descriptors
      ensures Valid()
      ensures var events := RenameEvents(src, isDirectory, watch.isRecursive, refSnapshot, newSnapshot, subMoved);
        var run := AfterEvents(old(Registered()), events, open);
        && r == run.outcome
        && Registered() == run.registry
        && queued == old(queued) + Items(events[..run.queuedCount], watch)
    {
      r := QueueEach(RenameEvents(src, isDirectory, watch.isRecursive, refSnapshot, newSnapshot, subMoved), open);
    }
  }

  /** A run that failed after `i` events is the whole run. */
  lemma {:induction false} KeepFailedRun(reg: map<Path, bool>, events: seq<Event>, i: nat, open: Path -> OpenResult)
    requires i <= |events|
    requires AfterEvents(reg, events[..i], open).outcome.Fail?
    ensures AfterEvents(reg, events, open) == AfterEvents(reg, events[..i], open)
    decreases |events| - i
  {
    if i < |events| {
      assert events[..i + 1][..i] == events[..i];
      KeepFailedRun(reg, events, i + 1, open);
    } else {
      assert events[..i] == events;
    }
  }
}
