/**
 * Kevent descriptors and the descriptor set of the kqueue emitter. Opening a path is an
 * OS call: its result enters as an `OpenResult`, and a successful open returns the next
 * fresh descriptor number. `openFds` records the descriptors this set has opened and not
 * yet closed, so that "no descriptor leaks" is an invariant of the set.
 */
module KqueueDescriptors {
  import opened Wrappers
  import opened Events
  import opened KqueueFlags

  /** errno for "no such file or directory". */
  const ENOENT := 2

  /** What `os.open(path, WATCHDOG_OS_OPEN_FLAGS)` did. */
  datatype OpenResult = Opened | OpenFailed(errno: int)

  datatype Kevent = Kevent(ident: nat, filter: int, flags: bv32, fflags: bv32)

  /** The kevent a descriptor registers for its fd. */
  function WatchKevent(fd: nat): (k: Kevent)
    ensures k.ident == fd
  {
    Kevent(fd, WATCHDOG_KQ_FILTER, WATCHDOG_KQ_EV_FLAGS, WATCHDOG_KQ_FFLAGS)
  }

  /** One open descriptor bound to one path. */
  datatype KeventDescriptor = KeventDescriptor(path: Path, isDirectory: bool, fd: nat)
  {
    function Kev(): Kevent
    {
      WatchKevent(fd)
    }

    /** `key`: the descriptor's identity for equality and hashing. */
    function Key(): (Path, bool)
    {
      (path, isDirectory)
    }
  }

  /** `KeventDescriptor.__eq__`: same path and kind, whatever the fd. */
  function SameDescriptor(a: KeventDescriptor, b: KeventDescriptor): (r: bool)
    ensures r <==> a.path == b.path && a.isDirectory == b.isDirectory
  {
    a.Key() == b.Key()
  }

  /** `KeventDescriptor.__ne__`. */
  function DifferentDescriptor(a: KeventDescriptor, b: KeventDescriptor): (r: bool)
    ensures r <==> !SameDescriptor(a, b)
  {
    a.Key() != b.Key()
  }

  /** The fd map without the descriptor(s) of `path`. */
  function WithoutPath(byFd: map<nat, KeventDescriptor>, path: Path): (r: map<nat, KeventDescriptor>)
    ensures forall fd :: fd in r <==> fd in byFd && byFd[fd].path != path
    ensures forall fd :: fd in r ==> r[fd] == byFd[fd]
  {
    map fd | fd in byFd && byFd[fd].path != path :: byFd[fd]
  }

  /** `list.remove(x)` without the ValueError: drops the first occurrence of `x`. */
  function RemoveFirst<T(==)>(s: seq<T>, x: T): (r: seq<T>)
    ensures multiset(r) == multiset(s) - multiset{x}
    ensures x !in s ==> r == s
  {
    if s == [] then []
    else
      assert s == [s[0]] + s[1..];
      if s[0] == x then s[1..] else [s[0]] + RemoveFirst(s[1..], x)
  }

  /** `list.remove` deletes the first occurrence `s[i]` of `x` and keeps the other elements in order. */
  lemma {:induction false} RemoveFirstKeepsOrder<T>(s: seq<T>, x: T, i: nat)
    requires i < |s| && s[i] == x && x !in s[..i]
    ensures RemoveFirst(s, x) == s[..i] + s[i + 1..]
  {
    if i > 0 {
      assert s[0] == s[..i][0];
      assert s[1..][..i - 1] == s[1..i];
      RemoveFirstKeepsOrder(s[1..], x, i - 1);
      assert s[..i] == [s[0]] + s[1..i];
    }
  }

  /**
   * The four collections describe the same descriptors: each map files a descriptor under
   * its own path or fd and only descriptors of the set; every descriptor is in both maps;
   * the kevent list holds each descriptor's kevent exactly once; the open descriptors are
   * exactly those in the fd map; fds below `nextFd` are taken.
   */
  ghost predicate Consistent(descriptors: set<KeventDescriptor>, byPath: map<Path, KeventDescriptor>,
                             byFd: map<nat, KeventDescriptor>, kevents: seq<Kevent>,
                             openFds: set<nat>, nextFd: nat)
  {
    && PathMapFiled(descriptors, byPath)
    && FdMapFiled(descriptors, byFd)
    && AllFiled(descriptors, byPath, byFd, nextFd)
    && KeventsMatch(kevents, byFd)
    && openFds == byFd.Keys
  }

  ghost predicate PathMapFiled(descriptors: set<KeventDescriptor>, byPath: map<Path, KeventDescriptor>)
  {
    forall p :: p in byPath ==> byPath[p].path == p && byPath[p] in descriptors
  }

  ghost predicate FdMapFiled(descriptors: set<KeventDescriptor>, byFd: map<nat, KeventDescriptor>)
  {
    forall fd :: fd in byFd ==> byFd[fd].fd == fd && byFd[fd] in descriptors
  }

  ghost predicate AllFiled(descriptors: set<KeventDescriptor>, byPath: map<Path, KeventDescriptor>,
                           byFd: map<nat, KeventDescriptor>, nextFd: nat)
  {
    forall d :: d in descriptors ==>
      && d.path in byPath && byPath[d.path] == d
      && d.fd in byFd && byFd[d.fd] == d
      && d.fd < nextFd
  }

  /** Each kevent in the list occurs once and is the kevent of the descriptor on its fd. */
  ghost predicate KeventsMatch(kevents: seq<Kevent>, byFd: map<nat, KeventDescriptor>)
  {
    forall k :: multiset(kevents)[k] == if k.ident in byFd && byFd[k.ident].Kev() == k then 1 else 0
  }

  /** Path -> is-directory for every path of a path map. */
  function RegisteredOf(byPath: map<Path, KeventDescriptor>): map<Path, bool>
  {
    map p | p in byPath :: byPath[p].isDirectory
  }

  /** Adding a descriptor on a fresh fd for an unregistered path keeps the collections consistent. */
  lemma AddKeepsConsistent(descriptors: set<KeventDescriptor>, byPath: map<Path, KeventDescriptor>,
                           byFd: map<nat, KeventDescriptor>, kevents: seq<Kevent>,
                           openFds: set<nat>, nextFd: nat, d: KeventDescriptor)
    requires Consistent(descriptors, byPath, byFd, kevents, openFds, nextFd)
    requires d.path !in byPath && d.fd == nextFd
    ensures d !in descriptors
    ensures Consistent(descriptors + {d}, byPath[d.path := d], byFd[d.fd := d], kevents + [d.Kev()],
                       openFds + {d.fd}, nextFd + 1)
    ensures RegisteredOf(byPath[d.path := d]) == RegisteredOf(byPath)[d.path := d.isDirectory]
  {
    AddKeepsFiled(descriptors, byPath, byFd, nextFd, d);
    AddKeepsKevents(byFd, kevents, d);
  }

  lemma AddKeepsFiled(descriptors: set<KeventDescriptor>, byPath: map<Path, KeventDescriptor>,
                      byFd: map<nat, KeventDescriptor>, nextFd: nat, d: KeventDescriptor)
    requires PathMapFiled(descriptors, byPath) && FdMapFiled(descriptors, byFd)
    requires AllFiled(descriptors, byPath, byFd, nextFd)
    requires d.path !in byPath && d.fd == nextFd
    ensures d !in descriptors
    ensures PathMapFiled(descriptors + {d}, byPath[d.path := d])
    ensures FdMapFiled(descriptors + {d}, byFd[d.fd := d])
    ensures AllFiled(descriptors + {d}, byPath[d.path := d], byFd[d.fd := d], nextFd + 1)
  {
  }

  lemma AddKeepsKevents(byFd: map<nat, KeventDescriptor>, kevents: seq<Kevent>, d: KeventDescriptor)
    requires KeventsMatch(kevents, byFd)
    requires d.fd !in byFd
    ensures KeventsMatch(kevents + [d.Kev()], byFd[d.fd := d])
  {
    assert multiset(kevents + [d.Kev()]) == multiset(kevents) + multiset{d.Kev()};
  }

  /** Removing the descriptor of a registered path keeps the collections consistent. */
  lemma RemoveKeepsConsistent(descriptors: set<KeventDescriptor>, byPath: map<Path, KeventDescriptor>,
                              byFd: map<nat, KeventDescriptor>, kevents: seq<Kevent>,
                              openFds: set<nat>, nextFd: nat, path: Path)
    requires Consistent(descriptors, byPath, byFd, kevents, openFds, nextFd)
    requires path in byPath
    ensures var d := byPath[path];
      && d in descriptors
      && byFd - {d.fd} == WithoutPath(byFd, path)
      && Consistent(descriptors - {d}, byPath - {path}, byFd - {d.fd}, RemoveFirst(kevents, d.Kev()),
                    openFds - {d.fd}, nextFd)
    ensures RegisteredOf(byPath - {path}) == RegisteredOf(byPath) - {path}
  {
    var d := byPath[path];
    RemoveKeepsFiled(descriptors, byPath, byFd, nextFd, path);
    RemoveKeepsKevents(byFd, kevents, d);
  }

  lemma RemoveKeepsFiled(descriptors: set<KeventDescriptor>, byPath: map<Path, KeventDescriptor>,
                         byFd: map<nat, KeventDescriptor>, nextFd: nat, path: Path)
    requires PathMapFiled(descriptors, byPath) && FdMapFiled(descriptors, byFd)
    requires AllFiled(descriptors, byPath, byFd, nextFd)
    requires path in byPath
    ensures var d := byPath[path];
      && d in descriptors
      && byFd - {d.fd} == WithoutPath(byFd, path)
      && PathMapFiled(descriptors - {d}, byPath - {path})
      && FdMapFiled(descriptors - {d}, byFd - {d.fd})
      && AllFiled(descriptors - {d}, byPath - {path}, byFd - {d.fd}, nextFd)
  {
    var d := byPath[path];
    assert byFd - {d.fd} == WithoutPath(byFd, path);
  }

  lemma RemoveKeepsKevents(byFd: map<nat, KeventDescriptor>, kevents: seq<Kevent>, d: KeventDescriptor)
    requires KeventsMatch(kevents, byFd)
    requires d.fd in byFd && byFd[d.fd] == d
    ensures KeventsMatch(RemoveFirst(kevents, d.Kev()), byFd - {d.fd})
  {
  }

  /** Without a descriptor for `path`, dropping `path` changes nothing. */
  lemma RemoveAbsentIsIdentity(descriptors: set<KeventDescriptor>, byPath: map<Path, KeventDescriptor>,
                               byFd: map<nat, KeventDescriptor>, kevents: seq<Kevent>,
                               openFds: set<nat>, nextFd: nat, path: Path)
    requires Consistent(descriptors, byPath, byFd, kevents, openFds, nextFd)
    requires path !in byPath
    ensures byFd == WithoutPath(byFd, path)
    ensures RegisteredOf(byPath) == RegisteredOf(byPath) - {path}
  {
    assert byFd == WithoutPath(byFd, path);
  }

  /**
   * The collections of a descriptor set: the descriptors, the path and fd maps, the kevent
   * list, the descriptors opened and not yet closed, and the next fd the OS hands out.
   */
  datatype DescriptorState = DescriptorState(
    descriptors: set<KeventDescriptor>,
    descriptorForPath: map<Path, KeventDescriptor>,
    descriptorForFd: map<nat, KeventDescriptor>,
    kevents: seq<Kevent>,
    openFds: set<nat>,
    nextFd: nat)
  {
    ghost predicate Valid()
    {
      Consistent(descriptors, descriptorForPath, descriptorForFd, kevents, openFds, nextFd)
    }

    /** Path -> is-directory for every registered path. */
    function Registered(): map<Path, bool>
    {
      RegisteredOf(descriptorForPath)
    }
  }

  /**
   * The descriptor set. Its collections are one value, `state`, which every operation
   * replaces as a whole, so that their consistency is a single invariant.
   */
  class KeventDescriptorSet {
    var state: DescriptorState

    ghost predicate Valid()
      reads this
    {
      state.Valid()
    }

    /** Path -> is-directory for every registered path. */
    function Registered(): map<Path, bool>
      reads this
    {
      state.Registered()
    }

    /** `paths`. */
    function Paths(): set<Path>
      reads this
    {
      state.descriptorForPath.Keys
    }

    constructor ()
      ensures Valid()
      ensures state.descriptors == {} && state.descriptorForPath == map[] && state.descriptorForFd == map[]
      ensures state.kevents == [] && state.openFds == {}
    {
      state := DescriptorState({}, map[], map[], [], {}, 0);
    }

    /** Under `Valid`, `__eq__` on the set's members is the datatype's equality. */
    lemma SameDescriptorIsIdentity(a: KeventDescriptor, b: KeventDescriptor)
      requires Valid() && a in state.descriptors && b in state.descriptors
      ensures SameDescriptor(a, b) <==> a == b
    {
    }

    /** `get_for_fd`; `None` stands for KeyError. */
    method GetForFd(fd: nat) returns (r: Option<KeventDescriptor>)
      requires Valid()
      ensures r.Some? <==> fd in state.openFds
      ensures r.Some? ==> r.value in state.descriptors && r.value.fd == fd
    {
      if fd in state.descriptorForFd {
        r := Some(state.descriptorForFd[fd]);
      } else {
        r := None;
      }
    }

    /** `get`; `None` stands for KeyError. */
    method Get(path: Path) returns (r: Option<KeventDescriptor>)
      requires Valid()
      ensures r.None? <==> forall d :: d in state.descriptors ==> d.path != path
      ensures r.Some? ==> r.value in state.descriptors && r.value.path == path
    {
      if path in state.descriptorForPath {
        r := Some(state.descriptorForPath[path]);
      } else {
        r := None;
      }
    }

    /** `__contains__`. */
    method Contains(path: Path) returns (b: bool)
      requires Valid()
      ensures b <==> exists d :: d in state.descriptors && d.path == path
    {
      b := path in state.descriptorForPath;
      if b {
        assert state.descriptorForPath[path] in state.descriptors;
      }
    }

    /**
     * `add`: nothing happens for a registered path (not even the open). Otherwise the path
     * is opened; a failed open raises its OSError and changes nothing, and a successful
     * one registers a descriptor on the fresh fd in all four collections.
     */
    method Add(path: Path, isDirectory: bool, open: OpenResult) returns (r: Outcome<int>)
      requires Valid()
      modifies this
      ensures Valid()
      ensures path in old(state.descriptorForPath) ==> r == Pass && state == old(state)
      ensures path !in old(state.descriptorForPath) && open.OpenFailed? ==>
        r == Fail(open.errno) && state == old(state)
      ensures path !in old(state.descriptorForPath) && open.Opened? ==>
        var s, d := old(state), KeventDescriptor(path, isDirectory, old(state.nextFd));
        && r == Pass
        && d !in s.descriptors
        && state == DescriptorState(s.descriptors + {d}, s.descriptorForPath[path := d],
                                    s.descriptorForFd[d.fd := d], s.kevents + [d.Kev()],
                                    s.openFds + {d.fd}, s.nextFd + 1)
      ensures Registered() == if path in old(state.descriptorForPath) || open.OpenFailed? then old(Registered())
                              else old(Registered())[path := isDirectory]
    {
      var s := state;
      if path in s.descriptorForPath {
        return Pass;
      }
      if open.OpenFailed? {
        return Fail(open.errno);
      }
      var d := KeventDescriptor(path, isDirectory, s.nextFd);
      AddKeepsConsistent(s.descriptors, s.descriptorForPath, s.descriptorForFd, s.kevents, s.openFds, s.nextFd, d);
      state := DescriptorState(s.descriptors + {d}, s.descriptorForPath[path := d], s.descriptorForFd[d.fd := d],
                               s.kevents + [d.Kev()], s.openFds + {d.fd}, s.nextFd + 1);
      r := Pass;
    }

    /**
     * `remove`: nothing happens for an unknown path; otherwise its descriptor leaves the
     * set, both maps and the kevent list, and its fd is closed.
     */
    method Remove(path: Path)
      requires Valid()
      modifies this
      ensures Valid()
      ensures path !in old(state.descriptorForPath) ==> state == old(state)
      ensures path in old(state.descriptorForPath) ==>
        var s := old(state);
        var d := s.descriptorForPath[path];
        && d in s.descriptors
        && state == DescriptorState(s.descriptors - {d}, s.descriptorForPath - {path},
                                    s.descriptorForFd - {d.fd}, RemoveFirst(s.kevents, d.Kev()),
                                    s.openFds - {d.fd}, s.nextFd)
      ensures state.descriptorForFd == WithoutPath(old(state.descriptorForFd), path)
      ensures Registered() == old(Registered()) - {path}
    {
      var s := state;
      if path in s.descriptorForPath {
        var d := s.descriptorForPath[path];
        RemoveKeepsConsistent(s.descriptors, s.descriptorForPath, s.descriptorForFd, s.kevents, s.openFds, s.nextFd, path);
        // descriptor.close() takes d.fd out of the open descriptors.
        state := DescriptorState(s.descriptors - {d}, s.descriptorForPath - {path}, s.descriptorForFd - {d.fd},
                                 RemoveFirst(s.kevents, d.Kev()), s.openFds - {d.fd}, s.nextFd);
      } else {
        RemoveAbsentIsIdentity(s.descriptors, s.descriptorForPath, s.descriptorForFd, s.kevents, s.openFds, s.nextFd, path);
      }
    }

    /** `clear`: every descriptor's fd is closed and all four collections are emptied. */
    method Clear()
      requires Valid()
      modifies this
      ensures Valid()
      ensures state.descriptors == {} && state.descriptorForPath == map[] && state.descriptorForFd == map[]
      ensures state.kevents == []
      ensures state.openFds == old(state.openFds) - set d | d in old(state.descriptors) :: d.fd
      ensures state.openFds == {}
      ensures state.nextFd == old(state.nextFd)
    {
      var s := state;
      var open := s.openFds;
      var rest := s.descriptors;
      while rest != {}
        invariant rest <= s.descriptors
        invariant open == s.openFds - set d | d in s.descriptors && d !in rest :: d.fd
        decreases rest
      {
        var d :| d in rest;
        open := open - {d.fd};   // descriptor.close()
        rest := rest - {d};
      }
      assert forall fd :: fd in s.openFds ==> s.descriptorForFd[fd] in s.descriptors;
      state := DescriptorState({}, map[], map[], [], open, s.nextFd);
    }
  }
}
