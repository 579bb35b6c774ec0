/**
 * The FSEvents emitter's `queue_events`: the difference between a new snapshot and the
 * stored one becomes an ordered list of events, and the new snapshot replaces the stored
 * one. Taking a snapshot (a directory walk) and diffing two snapshots are not part of this
 * model: the new snapshot enters as a value and the diff as the function `minus`.
 */
module FsEvents {
  import opened Events
  import opened ObserverApi

  /** One event per element of `xs`, in order. */
  function EventsOf<T>(xs: seq<T>, make: T -> Event): (r: seq<Event>)
    ensures |r| == |xs|
    ensures forall i :: 0 <= i < |xs| ==> r[i] == make(xs[i])
  {
    seq(|xs|, i requires 0 <= i < |xs| => make(xs[i]))
  }

  function FileDeleted(p: Path): Event { Deleted(false, p) }
  function FileModified(p: Path): Event { Modified(false, p) }
  function FileCreated(p: Path): Event { Created(false, p) }
  function FileMoved(m: (Path, Path)): Event { Moved(false, m.0, m.1) }
  function DirDeleted(p: Path): Event { Deleted(true, p) }
  function DirModified(p: Path): Event { Modified(true, p) }
  function DirCreated(p: Path): Event { Created(true, p) }
  function DirMoved(m: (Path, Path)): Event { Moved(true, m.0, m.1) }

  /** The total size of the eight collections of a diff. */
  function DiffSize(d: SnapshotDiff): nat
  {
    |d.filesDeleted| + |d.filesModified| + |d.filesCreated| + |d.filesMoved|
    + |d.dirsDeleted| + |d.dirsModified| + |d.dirsCreated| + |d.dirsMoved|
  }

  /** The events `queue_events` queues for diff `d`, in the order it queues them. */
  function TranslateDiff(d: SnapshotDiff): (r: seq<Event>)
    ensures |r| == DiffSize(d)
  {
    EventsOf(d.filesDeleted, FileDeleted) + EventsOf(d.filesModified, FileModified)
    + EventsOf(d.filesCreated, FileCreated) + EventsOf(d.filesMoved, FileMoved)
    + EventsOf(d.dirsDeleted, DirDeleted) + EventsOf(d.dirsModified, DirModified)
    + EventsOf(d.dirsCreated, DirCreated) + EventsOf(d.dirsMoved, DirMoved)
  }

  /**
   * The place of an event's class in the queuing order: files before directories, and
   * within each, deleted, modified, created, moved.
   */
  function Rank(e: Event): nat
  {
    (if e.isDirectory then 4 else 0)
    + match e
      case Deleted(_, _) => 0
      case Modified(_, _) => 1
      case Created(_, _) => 2
      case Moved(_, _, _) => 3
  }

  predicate Ordered(r: seq<Event>)
  {
    forall i, j :: 0 <= i < j < |r| ==> Rank(r[i]) <= Rank(r[j])
  }

  /** Appending a block of rank-`c` events to an ordered list of ranks at most `c`. */
  lemma AppendBlock(prefix: seq<Event>, block: seq<Event>, c: nat)
    requires Ordered(prefix) && (forall i :: 0 <= i < |prefix| ==> Rank(prefix[i]) <= c)
    requires forall i :: 0 <= i < |block| ==> Rank(block[i]) == c
    ensures Ordered(prefix + block) && (forall i :: 0 <= i < |prefix + block| ==> Rank((prefix + block)[i]) <= c)
  {
    var r := prefix + block;
    forall i, j | 0 <= i < j < |r|
      ensures Rank(r[i]) <= Rank(r[j])
    {
      if j < |prefix| {
        assert r[i] == prefix[i] && r[j] == prefix[j];
      } else if i < |prefix| {
        assert r[i] == prefix[i] && r[j] == block[j - |prefix|];
      } else {
        assert r[i] == block[i - |prefix|] && r[j] == block[j - |prefix|];
      }
    }
  }

  /**
   * The queuing order: every file event comes before every directory event, and within
   * each kind deletions, modifications, creations and moves follow one another.
   */
  lemma TranslateDiffIsOrdered(d: SnapshotDiff)
    ensures Ordered(TranslateDiff(d))
    ensures forall i, j :: 0 <= i < j < |TranslateDiff(d)| && TranslateDiff(d)[i].isDirectory ==>
      TranslateDiff(d)[j].isDirectory
  {
    var b1 := EventsOf(d.filesDeleted, FileDeleted);
    AppendBlock([], b1, 0);
    assert [] + b1 == b1;
    var b2 := b1 + EventsOf(d.filesModified, FileModified);
    AppendBlock(b1, EventsOf(d.filesModified, FileModified), 1);
    var b3 := b2 + EventsOf(d.filesCreated, FileCreated);
    AppendBlock(b2, EventsOf(d.filesCreated, FileCreated), 2);
    var b4 := b3 + EventsOf(d.filesMoved, FileMoved);
    AppendBlock(b3, EventsOf(d.filesMoved, FileMoved), 3);
    var b5 := b4 + EventsOf(d.dirsDeleted, DirDeleted);
    AppendBlock(b4, EventsOf(d.dirsDeleted, DirDeleted), 4);
    var b6 := b5 + EventsOf(d.dirsModified, DirModified);
    AppendBlock(b5, EventsOf(d.dirsModified, DirModified), 5);
    var b7 := b6 + EventsOf(d.dirsCreated, DirCreated);
    AppendBlock(b6, EventsOf(d.dirsCreated, DirCreated), 6);
    var b8 := b7 + EventsOf(d.dirsMoved, DirMoved);
    AppendBlock(b7, EventsOf(d.dirsMoved, DirMoved), 7);
    assert b8 == TranslateDiff(d);
    forall i, j | 0 <= i < j < |b8| && b8[i].isDirectory
      ensures b8[j].isDirectory
    {
      assert Rank(b8[i]) >= 4;
    }
  }

  /** Which collection of the diff an event comes from. */
  predicate FromDiff(e: Event, d: SnapshotDiff)
  {
    match e
    case Deleted(isDirectory, p) => p in (if isDirectory then d.dirsDeleted else d.filesDeleted)
    case Modified(isDirectory, p) => p in (if isDirectory then d.dirsModified else d.filesModified)
    case Created(isDirectory, p) => p in (if isDirectory then d.dirsCreated else d.filesCreated)
    case Moved(isDirectory, src, dest) => (src, dest) in (if isDirectory then d.dirsMoved else d.filesMoved)
  }

  /** An event is in `EventsOf(xs, make)` exactly when some element of `xs` makes it. */
  lemma InEventsOf<T>(xs: seq<T>, make: T -> Event, e: Event)
    ensures e in EventsOf(xs, make) <==> exists i :: 0 <= i < |xs| && make(xs[i]) == e
  {
    var r := EventsOf(xs, make);
    if e in r {
      var i :| 0 <= i < |r| && r[i] == e;
      assert make(xs[i]) == e;
    }
  }

  /**
   * The queued events are exactly the diff's entries, each with its own class: in
   * particular each moved pair becomes one move with the same source and destination.
   */
  lemma TranslateDiffContents(d: SnapshotDiff, e: Event)
    ensures e in TranslateDiff(d) <==> FromDiff(e, d)
  {
    var parts := [EventsOf(d.filesDeleted, FileDeleted), EventsOf(d.filesModified, FileModified),
                  EventsOf(d.filesCreated, FileCreated), EventsOf(d.filesMoved, FileMoved),
                  EventsOf(d.dirsDeleted, DirDeleted), EventsOf(d.dirsModified, DirModified),
                  EventsOf(d.dirsCreated, DirCreated), EventsOf(d.dirsMoved, DirMoved)];
    var r := TranslateDiff(d);
    assert r == parts[0] + parts[1] + parts[2] + parts[3] + parts[4] + parts[5] + parts[6] + parts[7];
    assert forall k, x :: 0 <= k < 8 && x in parts[k] ==> Rank(x) == k;
    assert e in r <==> e in parts[Rank(e)];
    match e
    case Deleted(isDirectory, p) =>
      var xs := if isDirectory then d.dirsDeleted else d.filesDeleted;
      InEventsOf(xs, if isDirectory then DirDeleted else FileDeleted, e);
      assert p in xs <==> exists i :: 0 <= i < |xs| && xs[i] == p;
    case Modified(isDirectory, p) =>
      var xs := if isDirectory then d.dirsModified else d.filesModified;
      InEventsOf(xs, if isDirectory then DirModified else FileModified, e);
      assert p in xs <==> exists i :: 0 <= i < |xs| && xs[i] == p;
    case Created(isDirectory, p) =>
      var xs := if isDirectory then d.dirsCreated else d.filesCreated;
      InEventsOf(xs, if isDirectory then DirCreated else FileCreated, e);
      assert p in xs <==> exists i :: 0 <= i < |xs| && xs[i] == p;
    case Moved(isDirectory, src, dest) =>
      var xs := if isDirectory then d.dirsMoved else d.filesMoved;
      InEventsOf(xs, if isDirectory then DirMoved else FileMoved, e);
      assert (src, dest) in xs <==> exists i :: 0 <= i < |xs| && xs[i] == (src, dest);
  }

  class FsEventsEmitter {
    const watch: ObservedWatch
    /** The stored snapshot. */
    var snapshot: Snapshot
    /** The paths FSEvents watches for this emitter; `run` sets it to the watched path. */
    var pathnames: seq<Path>
    /** Every `(event, watch)` pair put on the event queue, in order. */
    var queued: seq<QueuedItem>

    /** An emitter as `run` leaves it before the first callback. */
    constructor (watch: ObservedWatch, initial: Snapshot)
      ensures this.watch == watch && snapshot == initial && pathnames == [watch.path] && queued == []
    {
      this.watch := watch;
      snapshot := initial;
      pathnames := [watch.path];
      queued := [];
    }

    /** `queue_event` for each element of `xs` in turn. */
    method QueueEach<T>(xs: seq<T>, make: T -> Event)
      modifies this`queued
      ensures queued == old(queued) + Items(EventsOf(xs, make), watch)
    {
      ghost var before := queued;
      for i := 0 to |xs|
        invariant queued == before + Items(EventsOf(xs[..i], make), watch)
      {
        queued := queued + [QueuedItem(make(xs[i]), watch)];
        assert Items(EventsOf(xs[..i + 1], make), watch)
            == Items(EventsOf(xs[..i], make), watch) + [QueuedItem(make(xs[i]), watch)];
      }
      assert xs[..|xs|] == xs;
    }

    /**
     * `queue_events`: nothing happens for a non-recursive watch whose path is not among
     * the watched paths; otherwise the new snapshot replaces the stored one and the
     * events of `minus(newSnapshot, stored)` are queued, files first.
     */
    method QueueEvents(newSnapshot: Snapshot, minus: (Snapshot, Snapshot) -> SnapshotDiff)
      modifies this
      ensures pathnames == old(pathnames)
      ensures !watch.isRecursive && watch.path !in pathnames ==> snapshot == old(snapshot) && queued == old(queued)
      ensures watch.isRecursive || watch.path in pathnames ==>
        && snapshot == newSnapshot
        && queued == old(queued) + Items(TranslateDiff(minus(newSnapshot, old(snapshot))), watch)
    {
      if !watch.isRecursive && watch.path !in pathnames {
        return;
      }
      var events := minus(newSnapshot, snapshot);
      snapshot := newSnapshot;
      ghost var before := queued;
      ghost var done: seq<Event> := [];
      QueueBlock(events.filesDeleted, FileDeleted, before, done);
      done := done + EventsOf(events.filesDeleted, FileDeleted);
      QueueBlock(events.filesModified, FileModified, before, done);
      done := done + EventsOf(events.filesModified, FileModified);
      QueueBlock(events.filesCreated, FileCreated, before, done);
      done := done + EventsOf(events.filesCreated, FileCreated);
      QueueBlock(events.filesMoved, FileMoved, before, done);
      done := done + EventsOf(events.filesMoved, FileMoved);
      QueueBlock(events.dirsDeleted, DirDeleted, before, done);
      done := done + EventsOf(events.dirsDeleted, DirDeleted);
      QueueBlock(events.dirsModified, DirModified, before, done);
      done := done + EventsOf(events.dirsModified, DirModified);
      QueueBlock(events.dirsCreated, DirCreated, before, done);
      done := done + EventsOf(events.dirsCreated, DirCreated);
      QueueBlock(events.dirsMoved, DirMoved, before, done);
      done := done + EventsOf(events.dirsMoved, DirMoved);
      assert done == TranslateDiff(events) by {
        assert [] + EventsOf(events.filesDeleted, FileDeleted) == EventsOf(events.filesDeleted, FileDeleted);
      }
    }

    /** One of the eight loops of `queue_events`, after the blocks `done` have been queued. */
    method QueueBlock<T>(xs: seq<T>, make: T -> Event, ghost before: seq<QueuedItem>, ghost done: seq<Event>)
      requires queued == before + Items(done, watch)
      modifies this`queued
      ensures queued == before + Items(done + EventsOf(xs, make), watch)
    {
      QueueEach(xs, make);
      assert Items(done + EventsOf(xs, make), watch) == Items(done, watch) + Items(EventsOf(xs, make), watch);
    }
  }
}
