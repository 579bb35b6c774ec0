# Fast-file-transfer server: a verified model of its file watching and device scripts

This project models, in Dafny, the server side of Fast-file-transfer:

- the vendored watchdog pieces the server relies on:
  - the kqueue emitter and its kevent descriptor set;
  - the observer API (watches, handler registration, emitters, dispatch);
  - the FSEvents emitter's translation of a snapshot diff into events;
- `watch_for_changes.py`, which moves the numbered parts of an uploaded file from the FTP
  directory to the user directory under a file lock;
- `vfs.py`, which creates and mounts a loop-backed ext3 image.

Each source file keeps its own form:

- Pure code is datatypes, functions and lemmas: flag tests, kevent classification,
  `ObservedWatch` equality, `get_file_name`, and the event lists of a rename or a diff.
- Code that updates objects in place becomes classes:
  - `KeventDescriptorSet`, `KqueueEmitter`, `BaseObserver` and `FSEventsEmitter`.
  - Each replaces its registries in one step and states the new state in full.
- Loops become methods with loop invariants, proved against specification functions:
  - the kevent scan, dispatch, the rename loop of `process`;
  - the free loop-device search of `vfs.py`.

Modules:

| file | module | models |
|---|---|---|
| wrappers.dfy | Wrappers | `Option`, and `Outcome` for a call that raises |
| text.dfy | Text | the Python string operations the scripts use: slicing, `find`, `strip`, `int`, `str` |
| events.dfy | Events | file system events, snapshots and snapshot diffs |
| observer_api.dfy | ObserverApi | `server/watchdog/observers/api.py` |
| kqueue_flags.dfy | KqueueFlags | the kqueue constants and flag tests of `kqueue.py` |
| kqueue_descriptors.dfy | KqueueDescriptors | `KeventDescriptor` and `KeventDescriptorSet` |
| kqueue_emitter.dfy | Kqueue | `KqueueEmitter` |
| fsevents.dfy | FsEvents | `FSEventsEmitter.queue_events` |
| watch_for_changes.dfy | WatchForChanges | `server/watch_for_changes.py` |
| vfs.dfy | Vfs | `server/vfs.py` |

Where the code departs from what its names and docstrings suggest, the model follows the
code:

- `remove_handler_for_watch` leaves a watch's handler set in place even when it becomes
  empty, so a watch can have an empty handler entry.
- `add_handler_for_watch` also adds a handler entry for a watch that was never scheduled.
  Such an entry has no emitter, and `unschedule` of that watch raises KeyError.
- `FSEventsEmitter.run` sets `pathnames` to `[watch.path]` before any callback.
  From then on the non-recursive guard of `queue_events` never skips. The model keeps the
  guard and the field, so both branches are stated.
- `process` releases the lock twice on a normal return: once in the `try` body and once in
  `finally`. It releases once when it raises after acquiring.

## Model

| member | source | states |
|---|---|---|
| ObserverApi.WatchEquals | server/watchdog/observers/api.py:35-46 | two watches are equal exactly when path and recursion flag are equal, which is value equality of the datatype (so hashing by key agrees) |
| ObserverApi.WatchDiffers | server/watchdog/observers/api.py:42-43 | `!=` is the negation of `==` |
| ObserverApi.RaiseStopsDispatch | server/watchdog/observers/api.py:226-228 | an exception from a handler ends the loop: the dispatch raised exactly when the last handler called raised, and no earlier one did |
| ObserverApi.DispatchedWereRegistered | server/watchdog/observers/api.py:221-229 | for callbacks that only withdraw handlers or raise: a dispatched handler was in the copied list and registered when dispatch began, and the live set only shrinks |
| ObserverApi.WithdrawnHandlersAreSkipped | server/watchdog/observers/api.py:226-228 | a handler removed by an earlier handler's callback is not dispatched after that callback |
| ObserverApi.DispatchWithoutWithdrawals | server/watchdog/observers/api.py:226-228 | when no callback removes a handler or raises, every handler of the copy is dispatched, in the copy's order, and nothing raises |
| ObserverApi.BaseObserver.constructor | server/watchdog/observers/api.py:124-131 | a new observer has no watches, handlers, emitters or emitter map and is not alive |
| ObserverApi.BaseObserver.Start | server/watchdog/observers/api.py:170-173 | a second start raises RuntimeError and changes nothing; otherwise every emitter is started, each once, then the dispatcher, and nothing else changes |
| ObserverApi.BaseObserver.Schedule | server/watchdog/observers/api.py:175-190 | returns `ObservedWatch(path, recursive)` and adds the handler to its set; a known watch keeps its emitter; a new watch gets a fresh emitter, started only if the observer is alive; the registries stay consistent |
| ObserverApi.BaseObserver.AddHandler | server/watchdog/observers/api.py:157-160 | the handler joins the watch's set, which is created empty when missing; nothing else changes |
| ObserverApi.BaseObserver.AddHandlerForWatch | server/watchdog/observers/api.py:192-195 | as `_add_handler_for_watch`, for any watch, scheduled or not |
| ObserverApi.BaseObserver.RemoveHandlerForWatch | server/watchdog/observers/api.py:197-200 | succeeds exactly when the watch has an entry holding the handler, and removes only that handler, leaving the set even if empty; otherwise KeyError with nothing changed |
| ObserverApi.BaseObserver.Unschedule | server/watchdog/observers/api.py:202-208 | KeyError with nothing changed for a watch without emitter; otherwise exactly the watch's handler entry, emitter map entry, emitter and watch go, and the emitter is stopped |
| ObserverApi.BaseObserver.UnscheduleAll | server/watchdog/observers/api.py:146-216 | handlers, emitters, emitter map and watches end empty and every emitter is stopped; nothing else changes |
| ObserverApi.BaseObserver.OnThreadStop | server/watchdog/observers/api.py:218-219 | the same as `unschedule_all` |
| ObserverApi.BaseObserver.DispatchEvents | server/watchdog/observers/api.py:221-229 | a timed-out `get` raises with nothing dispatched or changed; otherwise, for callbacks that only withdraw handlers or raise, the copy lists the watch's handler set without repeats, the handlers called and whether one raised are those of the dispatch plan, only the watch's set changes, and `task_done` runs exactly when nothing raised |
| KqueueDescriptors.WatchKevent | server/watchdog/observers/kqueue.py:197-201 | a descriptor's kevent is keyed by its own fd |
| KqueueDescriptors.SameDescriptor | server/watchdog/observers/kqueue.py:237-241 | descriptors are equal exactly when path and kind agree, whatever their fd |
| KqueueDescriptors.DifferentDescriptor | server/watchdog/observers/kqueue.py:243-244 | `!=` is the negation of `==` |
| KqueueDescriptors.RemoveFirst | server/watchdog/observers/kqueue.py:188 | `list.remove` takes away one occurrence and nothing else; a list without the element is unchanged |
| KqueueDescriptors.RemoveFirstKeepsOrder | server/watchdog/observers/kqueue.py:188 | `list.remove` deletes the first occurrence and keeps the other elements in their order |
| KqueueDescriptors.AddKeepsConsistent | server/watchdog/observers/kqueue.py:176-181 | adding a descriptor on a fresh fd for a new path keeps the set, both maps, the kevent list and the open fds describing the same descriptors |
| KqueueDescriptors.AddKeepsFiled | server/watchdog/observers/kqueue.py:176-181 | the new descriptor is filed under its path and its fd and no old entry moves |
| KqueueDescriptors.AddKeepsKevents | server/watchdog/observers/kqueue.py:178 | appending the new descriptor's kevent keeps one kevent per filed fd |
| KqueueDescriptors.RemoveKeepsConsistent | server/watchdog/observers/kqueue.py:183-189 | removing a registered path's descriptor and closing its fd keeps the four collections consistent |
| KqueueDescriptors.RemoveKeepsFiled | server/watchdog/observers/kqueue.py:183-187 | after removal no map refers to the removed descriptor and the others stay filed |
| KqueueDescriptors.RemoveKeepsKevents | server/watchdog/observers/kqueue.py:188 | removing the descriptor's kevent keeps one kevent per remaining fd |
| KqueueDescriptors.RemoveAbsentIsIdentity | server/watchdog/observers/kqueue.py:147-152 | removing an unregistered path leaves the fd map and registrations as they are |
| KqueueDescriptors.KeventDescriptorSet.constructor | server/watchdog/observers/kqueue.py:92-106 | a new set has no descriptors, map entries, kevents or open fds |
| KqueueDescriptors.KeventDescriptorSet.SameDescriptorIsIdentity | server/watchdog/observers/kqueue.py:237-247 | within a consistent set, `__eq__` on members coincides with identity, so the hashed set has no duplicates |
| KqueueDescriptors.KeventDescriptorSet.GetForFd | server/watchdog/observers/kqueue.py:123-126 | finds a descriptor exactly for an open fd, and it is the one on that fd; KeyError otherwise |
| KqueueDescriptors.KeventDescriptorSet.Get | server/watchdog/observers/kqueue.py:128-169 | KeyError exactly when no descriptor has the path; otherwise the descriptor of that path |
| KqueueDescriptors.KeventDescriptorSet.Contains | server/watchdog/observers/kqueue.py:134-174 | true exactly when some descriptor has the path |
| KqueueDescriptors.KeventDescriptorSet.Add | server/watchdog/observers/kqueue.py:140-181 | a registered path is left alone; a failed open raises its errno with nothing changed; otherwise one descriptor on a fresh fd enters all four collections |
| KqueueDescriptors.KeventDescriptorSet.Remove | server/watchdog/observers/kqueue.py:147-189 | an absent path changes nothing; a present one leaves the set, both maps and the kevent list and its fd is closed |
| KqueueDescriptors.KeventDescriptorSet.Clear | server/watchdog/observers/kqueue.py:154-164 | every descriptor's fd is closed and all four collections end empty |
| Kqueue.Classify | server/watchdog/observers/kqueue.py:316-341 | a kevent yields a deletion exactly when DELETE is set; queued events are deletions or modifications of the descriptor's path and kind; a queued modification comes from ATTRIB, or from a write or extend on a file; a rename is deferred exactly when RENAME is the first of the four tests to hold; nothing happens exactly when none of the four tests holds |
| Kqueue.DeleteTakesPriority | server/watchdog/observers/kqueue.py:319-323 | with DELETE set the result is a deletion, whatever other bits are set |
| Kqueue.AttribBeatsWriteAndRename | server/watchdog/observers/kqueue.py:324-328 | without DELETE, ATTRIB yields a modification whatever write or rename bits are set |
| Kqueue.DirectoryWritesAreDeferred | server/watchdog/observers/kqueue.py:329-335 | a write or extend on a directory is deferred to `dirs_modified`; on a file it queues a file modification |
| Kqueue.RenameIsLastResort | server/watchdog/observers/kqueue.py:336-341 | a RENAME bit with no DELETE, ATTRIB or write/extend bit defers the path to the renamed set of its kind |
| Kqueue.LinkAndRevokeAreIgnored | server/watchdog/observers/kqueue.py:316-341 | a kevent with only LINK or REVOKE bits yields nothing |
| Kqueue.Register | server/watchdog/observers/kqueue.py:272-280 | registration succeeds unless the open fails with an errno other than ENOENT, which propagates with nothing changed; ENOENT drops the path silently; other paths are untouched |
| Kqueue.AfterEventRegistrations | server/watchdog/observers/kqueue.py:285-295 | creation registers the source, a move unregisters the source and registers the destination, deletion unregisters the source, modification changes nothing; only an open can fail |
| Kqueue.AfterEvents | server/watchdog/observers/kqueue.py:285-295 | events are handled in order until one raises; all are queued on success, and the raising one is itself queued |
| Kqueue.UnregisteringEventsNeverFail | server/watchdog/observers/kqueue.py:319-335 | queuing only deletions and modifications never raises and never adds a registration |
| Kqueue.KeepFailedRun | server/watchdog/observers/kqueue.py:285-295 | once an event raises, later events are not handled |
| Kqueue.ScanFacts | server/watchdog/observers/kqueue.py:308-341 | the scan queues only deletions and modifications of watched paths of the right kind; deferred sets hold watched paths of the right kind; a deleted path leaves the fd map; at most one result per kevent |
| Kqueue.KeyErrorStopsTheScan | server/watchdog/observers/kqueue.py:317 | a kevent on an unknown fd raises KeyError and nothing after it is looked at |
| Kqueue.DirsModifiedEvents | server/watchdog/observers/kqueue.py:297-306 | no events for an empty set; otherwise one directory modification per directory, then the created files, then the created directories, and no deletions |
| Kqueue.RenameOutcomes | server/watchdog/observers/kqueue.py:344-380 | an unknown source gives creation then deletion; a source whose inode the new snapshot has gives a move to that inode's path, alone unless it is a directory under a recursive watch; otherwise a deletion |
| Kqueue.KqueueEmitter.constructor | server/watchdog/observers/kqueue.py:256-263 | a new emitter has the given watch, an empty queue and no registrations |
| Kqueue.KqueueEmitter.RegisterKevent | server/watchdog/observers/kqueue.py:272-280 | registrations change as `Register` says; the descriptor set changes only on a new, successful open |
| Kqueue.KqueueEmitter.UnregisterKevent | server/watchdog/observers/kqueue.py:282-283 | the path's registration and its fd map entry go |
| Kqueue.KqueueEmitter.QueueEvent | server/watchdog/observers/kqueue.py:285-295 | the event is queued first, whatever follows; registrations then change as `AfterEvent` says; a modification leaves the descriptors alone |
| Kqueue.KqueueEmitter.QueueEach | server/watchdog/observers/kqueue.py:285-295 | queuing events one by one matches `AfterEvents` in outcome, registrations and queued items |
| Kqueue.KqueueEmitter.ScanKevent | server/watchdog/observers/kqueue.py:316-341 | one loop iteration of the scan matches one step of `ScanAll` |
| Kqueue.KqueueEmitter.QueueEventsExceptRenamesAndDirModifications | server/watchdog/observers/kqueue.py:308-341 | the queued events, the descriptor map and the three returned sets are those of `ScanAll`; a KeyError leaves the events queued before it |
| Kqueue.KqueueEmitter.QueueDirsModified | server/watchdog/observers/kqueue.py:297-306 | the directories are walked once each, and the events of `DirsModifiedEvents` are queued as `AfterEvents` says |
| Kqueue.KqueueEmitter.QueueRenamed | server/watchdog/observers/kqueue.py:344-380 | the events of `RenameEvents` for the watch's recursion flag are queued as `AfterEvents` says |
| FsEvents.TranslateDiff | server/watchdog/observers/fsevents.py:55-72 | the number of events equals the total size of the eight diff collections |
| FsEvents.AppendBlock | server/watchdog/observers/fsevents.py:55-72 | appending a block of events of one rank after events of lower rank keeps the order |
| FsEvents.TranslateDiffIsOrdered | server/watchdog/observers/fsevents.py:54-72 | file events come before directory events, and within each kind deletions, modifications, creations, moves |
| FsEvents.InEventsOf | server/watchdog/observers/fsevents.py:55-72 | an event is in a block exactly when it is made from some entry |
| FsEvents.TranslateDiffContents | server/watchdog/observers/fsevents.py:55-72 | an event is queued exactly when it comes from an entry of the matching diff collection; a moved pair gives one move with the same source and destination |
| FsEvents.FsEventsEmitter.constructor | server/watchdog/observers/fsevents.py:35-38 | the emitter watches its path, with `pathnames` as set by `run` |
| FsEvents.FsEventsEmitter.QueueEach | server/watchdog/observers/fsevents.py:55-72 | one loop queues its block's events in order |
| FsEvents.FsEventsEmitter.QueueEvents | server/watchdog/observers/fsevents.py:44-72 | a non-recursive watch whose path is not in `pathnames` queues nothing and keeps its snapshot; otherwise the new snapshot is stored and exactly `TranslateDiff` of the diff is queued |
| FsEvents.FsEventsEmitter.QueueBlock | server/watchdog/observers/fsevents.py:55-72 | each loop appends its events after those already queued |
| Events.Snapshot.StatInfoOf | server/watchdog/observers/kqueue.py:350-352 | `stat_info` finds exactly the paths of the snapshot |
| Events.Snapshot.PathForInode | server/watchdog/observers/kqueue.py:363-365 | `path_for_inode` finds a path exactly when some path has the inode, and that path has it |
| Text.Find | server/watch_for_changes.py:17 | `find` gives the first index of the character, and -1 exactly when it is absent |
| Text.StripLeft | server/watch_for_changes.py:36-38 | `strip` drops leading whitespace only: the result is a suffix not starting with whitespace, and all that was dropped is whitespace |
| Text.StripRight | server/watch_for_changes.py:36-38 | `strip` drops trailing whitespace only, in the same way |
| Text.ParseInt | server/watch_for_changes.py:43 | `int` succeeds exactly on an optional sign, whitespace after it, and a non-empty run of digits, giving their decimal value negated for '-'; anything else raises |
| Text.SpaceAfterSign | server/watch_for_changes.py:43 | Python 2's `int` skips whitespace after the sign: `- 3` is -3 and `+ 3` is 3 |
| Text.NatToString | server/watch_for_changes.py:44 | `str(i)` is a non-empty string of digits |
| Text.ParseNatToString | server/watch_for_changes.py:43-44 | `int(str(n)) == n`, so different part numbers give different names |
| Text.NatToStringLength | server/vfs.py:29 | a number at least 10^k has more than k digits |
| WatchForChanges.GetFileNameIsSuffix | server/watch_for_changes.py:14-18 | with a '/', the result is what follows the last '/'; without one, the input minus its first character |
| WatchForChanges.GetFileNameHasNoSlash | server/watch_for_changes.py:14-18 | the result never contains '/' |
| WatchForChanges.TrailingSlashGivesEmptyName | server/watch_for_changes.py:16-17 | a path ending in '/' gives the empty name |
| WatchForChanges.BareNameLosesFirstCharacter | server/watch_for_changes.py:16-17 | `notes.txt` gives `otes.txt` |
| WatchForChanges.FileName | server/watch_for_changes.py:14-18 | the intended name: a '/'-free suffix of the path that is the whole path or follows a '/' |
| WatchForChanges.FileNameAgreesWithSlash | server/watch_for_changes.py:14-18 | on a path with a '/', the intended name is what `get_file_name` returns |
| WatchForChanges.IntendedPartName | server/watch_for_changes.py:38-40 | the part name meant: a '/'-free name shorter than the stripped line, equal to what `process` builds whenever the line has a '/' |
| WatchForChanges.BarePartNameLosesFirstCharacter | server/watch_for_changes.py:38-40 | on a name line without '/', `process` builds the intended part name without its first character |
| WatchForChanges.RenamePlan | server/watch_for_changes.py:36-44 | a plan exists exactly when `int(count)` succeeds and `int(count) + 1` fits a C long, as `xrange` requires, and it renames parts 1..count of `get_file_name` of the stripped second line without its last character, none when the count is below 1 |
| WatchForChanges.MaxIntCountRaises | server/watch_for_changes.py:43 | a count of `sys.maxint` makes `xrange` raise OverflowError: `process` acquires, releases once and raises, with no rename |
| WatchForChanges.PlanSourcesDistinct | server/watch_for_changes.py:43-44 | different parts are renamed from different paths |
| WatchForChanges.Performed | server/watch_for_changes.py:43-44 | the renames done are the longest prefix of the plan that succeeds |
| WatchForChanges.LockDiscipline | server/watch_for_changes.py:28-51 | the lock is acquired once, first; released last, twice on a normal return and once when raising; a normal return has done every rename of the plan in order |
| WatchForChanges.RenameParts | server/watch_for_changes.py:43-44 | the loop performs the successful prefix of the plan and reports whether a rename raised |
| WatchForChanges.LockedRenames | server/watch_for_changes.py:43-51 | the actions after reading the control file match `PlanOutcome` |
| WatchForChanges.Process | server/watch_for_changes.py:25-51 | the actions and whether `process` raises match `ProcessOutcome` |
| WatchForChanges.OnCreated | server/watch_for_changes.py:54-55 | `on_created` does exactly what `process` does |
| WatchForChanges.ScriptWatch | server/watch_for_changes.py:59-61 | the script watches its first argument, or '.', not recursively |
| WatchForChanges.RunScript | server/watch_for_changes.py:58-63 | after scheduling and starting, the observer has exactly the script's watch with the one handler, and has started its one emitter before the dispatcher |
| Vfs.Multiplier | server/vfs.py:10-21 | b is 1, kb is 1000, mb is 1000000, decimal; any other unit has none |
| Vfs.WriteAt | server/vfs.py:22-23 | writing at an offset past the end leaves zeros in the gap, puts the data at the offset and keeps the rest |
| Vfs.ImageLength | server/vfs.py:9-23 | seeking to `size` in a truncated file and writing one NUL gives `size + 1` zero bytes |
| Vfs.GrepStatus | server/vfs.py:30-32 | grep exits 0 when some mounts line contains the loop name and 1 when none does |
| Vfs.FreeBeyondLongestLine | server/vfs.py:28-35 | an index with more digits than the longest mounts line is free, so the search ends |
| Vfs.Loop10ShadowsLoop1 | server/vfs.py:29-35 | a mounted `loop10` makes `loop1` count as busy |
| Vfs.UnknownUnitTruncatesFirst | server/vfs.py:9-21 | an unknown unit exits with 1 after the image is truncated, and before mkfs |
| Vfs.ImageIsSizePlusOne | server/vfs.py:10-23 | with a good size, the image is size × multiplier + 1 zero bytes |
| Vfs.MakeDirsOnlyWhenMissing | server/vfs.py:7-8 | the mount directory is created exactly when missing, first, and only then |
| Vfs.FindFreeLoop | server/vfs.py:27-35 | the chosen index is the least one no mounts line mentions; one grep per index up to it |
| Vfs.Provision | server/vfs.py:1-43 | any argument count other than four exits with -1 before touching anything; otherwise the steps, ending and image are those of `Script`; the search picks the least free loop, and the mount command uses that loop |

## Left out

- ObserverApi.BaseObserver.DispatchEvents: a handler callback may only withdraw handlers of the
  dispatched watch and then raise or return. Callbacks that re-enter the observer under its
  reentrant lock (`add_handler_for_watch`, `schedule`, `unschedule`, `unschedule_all`) are not
  modelled, so "only the watch's handler set changes" holds for withdraw-only callbacks.
- DispatchedWereRegistered: "the live set only shrinks" holds for withdraw-only callbacks; a
  callback calling `add_handler_for_watch` on the same watch would grow it.
- WatchForChanges.MAXINT: `sys.maxint` is taken from a 64-bit build (2^63 - 1); a 32-bit build
  would overflow at 2^31 - 1.
- Threads, locks and blocking: `threading.Lock`/`RLock`, `BaseThread`, `EventEmitter.run`,
  `EventDispatcher.run`, `stop` and `join`. Starting a thread appends to a start log;
  stopping and joining an emitter adds it to a stopped set.
- kqueue system calls (`select.kqueue`, `select.kevent`, `control`) and `os.open`/`os.close`.
  An open's result is an input, and file descriptors are fresh numbers from a counter.
- `absolute_path`: paths are taken as already absolute.
- Kqueue.KqueueEmitter: `open: Path -> OpenResult` gives one result per path for a whole call,
  so a path opened again after it was deleted within the same batch cannot open differently.
- `DirectorySnapshot`, its `-` diff and its walker callback. A snapshot is a map from paths
  to inode and kind; the diff is an input value or function.
- `sub_moved_events` is an input function.
- `SkipRepeatsQueue`: its body is not part of this model, so the queue is the sequence of
  items put on it, without de-duplication.
- `KqueueEmitter.queue_events` is not part of this model; the source of that class ends at
  `_queue_renamed`.
- Kqueue.KqueueEmitter.constructor: the walk that registers every path under the watch
  (kqueue.py:264-270) is left out, because `DirectorySnapshot` and its walker callback are
  abstracted; the constructor starts from an empty registry.
- The order in which Python iterates a set or dict is not modelled. `Start` returns the
  emitter order it used, `DispatchEvents` the handler copy, and `QueueDirsModified` the
  directory order, and each contract holds for any such order.
- The `_watchdog_fsevents` extension, `FSEventsEmitter.run` and `FSEventsObserver.schedule`
  (Unicode normalisation and encoding).
- `server/locking.py` (the `Semaphore` file lock): its acquire and release are logged
  actions. A failure of the lock itself is not modelled.
- `server/watchdog/observers/__init__.py` (platform selection) and the Android
  `ListAdapter.java`.
- `time.sleep`, `print`, reading the created file, the KeyboardInterrupt loop and
  `join` of the watch script. The file's first two lines are an input, `None` when it
  cannot be opened.
- WatchForChanges.Process: `os.rename` succeeding or raising is an input function of source
  and destination, and the file system effect of a rename is not modelled.
- WatchForChanges.RunScript: `Observer()` is the platform observer; the model uses the base
  observer with an abstract emitter.
- Vfs.Provision: `float()` is modelled as the parse of a decimal natural number. A size with a
  fraction, a sign or an exponent (`1.5`, `+2`, `1e3`) makes the model raise where the source
  would go on with a float size.
- Vfs.Provision: the shell commands (`mkfs`, `grep`, `mount`, `df`) are inputs: whether each
  `check_call` succeeds, and `/proc/mounts` as a list of lines. grep's pattern is taken
  literally, since a loop name has no regular expression metacharacters.
- Vfs.Provision: `os.makedirs` failing and the image file failing to open are not modelled.
- Vfs.Provision: `check_call` either returns 0 or raises, so the `Failed!!` branch of
  `vfs.py` is unreachable and has no counterpart.

## Findings

| source | as written | input that shows it | evidently intended | confidence | as-written member | corrected member |
|---|---|---|---|---|---|---|
| server/watch_for_changes.py:14-18 | `get_file_name` reverses the path, cuts at `find('/')` and reverses back. Without a '/', `find` returns -1, so `[:-1]` drops a character and the bare name loses its first character | `get_file_name("notes.txt")` gives `"otes.txt"` | the part after the last '/', or the whole path when it has no '/' | not executed | WatchForChanges.BareNameLosesFirstCharacter | WatchForChanges.FileName |
| server/watch_for_changes.py:38-40 | `process` builds the part name from `get_file_name` of the second line, so a name line without '/' loses its first character as well as its last | the name line `notes.txtx` makes `process` rename `/home/pygeek/Desktop/oslab/ftp/otes.txt.1` instead of `.../ftp/notes.txt.1` | the file name of the second line without its last character | not executed | WatchForChanges.BarePartNameLosesFirstCharacter | WatchForChanges.IntendedPartName |

`process` (WatchForChanges.Process) is modelled as written, so its renames use the truncated
name; `IntendedPartName` is the name it evidently means, and the two agree on every name line
that contains a '/'.
