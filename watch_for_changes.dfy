/**
 * The watch script: `get_file_name`, the handler's `process` (rename the numbered parts of
 * an uploaded file from the FTP directory to the user directory while holding a file lock),
 * `on_created`, and the script's scheduling of its watch.
 *
 * The control file's two lines, the outcome of each `os.rename` and the lock are inputs or
 * logged actions; `time.sleep` and `print` are not modelled.
 */
module WatchForChanges {
  import opened Wrappers
  import opened Text
  import opened Events
  import opened ObserverApi

  const FTP_PATH := "/home/pygeek/Desktop/oslab/ftp/"
  const USER_PATH := "/home/pygeek/Desktop/oslab/ftp/user/"

  /* ----- get_file_name ----- */

  /** `get_file_name` as written: reverse, cut at the first '/', reverse back. */
  function GetFileName(absolutePath: string): string
  {
    var reversed := Reverse(absolutePath);
    Reverse(SliceTo(reversed, Find(reversed, '/')))
  }

  /** Reversing a prefix of the reversed sequence gives back a suffix. */
  lemma ReverseOfPrefix<T>(s: seq<T>, m: nat)
    requires m <= |s|
    ensures Reverse(Reverse(s)[..m]) == s[|s| - m..]
  {
    var r := Reverse(Reverse(s)[..m]);
    forall i | 0 <= i < m
      ensures r[i] == s[|s| - m + i]
    {
      assert r[i] == Reverse(s)[..m][m - 1 - i] == Reverse(s)[m - 1 - i];
    }
    assert r == s[|s| - m..];
  }

  /**
   * What `get_file_name` returns: with a '/' in the path, the part after the last '/';
   * without one, the path minus its first character.
   */
  lemma {:induction false} GetFileNameIsSuffix(s: string)
    ensures '/' in s ==> exists k :: 0 <= k < |s| && s[k] == '/' && GetFileName(s) == s[k + 1..] && '/' !in s[k + 1..]
    ensures '/' !in s ==> GetFileName(s) == if s == [] then [] else s[1..]
  {
    var reversed := Reverse(s);
    var k := Find(reversed, '/');
    var m := SliceEnd(|s|, k);
    ReverseOfPrefix(s, m);
    assert GetFileName(s) == s[|s| - m..];
    if '/' in s {
      var j :| 0 <= j < |s| && s[j] == '/';
      assert reversed[|s| - 1 - j] == '/';
      assert k >= 0 && m == k;
      assert s[|s| - 1 - k] == '/';
      forall i | |s| - k <= i < |s|
        ensures s[i] != '/'
      {
        assert reversed[..k][|s| - 1 - i] == s[i];
      }
      assert s[|s| - 1 - k + 1..] == s[|s| - k..];
    } else {
      forall i | 0 <= i < |s|
        ensures reversed[i] != '/'
      {
        assert reversed[i] == s[|s| - 1 - i];
      }
      assert k == -1;
    }
  }

  /** The file name never contains '/'. */
  lemma GetFileNameHasNoSlash(s: string)
    ensures '/' !in GetFileName(s)
  {
    GetFileNameIsSuffix(s);
  }

  /** A path ending in '/' has the empty file name. */
  lemma TrailingSlashGivesEmptyName(s: string)
    requires s != [] && s[|s| - 1] == '/'
    ensures GetFileName(s) == []
  {
    var reversed := Reverse(s);
    assert reversed[0] == '/';
    assert Find(reversed, '/') == 0;
    assert SliceTo(reversed, 0) == [];
  }

  /** A bare file name loses its first character. */
  lemma BareNameLosesFirstCharacter()
    ensures GetFileName("notes.txt") == "otes.txt"
  {
    GetFileNameIsSuffix("notes.txt");
    assert '/' !in "notes.txt";
  }

  /** The file name as intended: the part after the last '/', or the whole path without one. */
  function FileName(absolutePath: string): (r: string)
    ensures '/' !in r
    ensures |r| <= |absolutePath| && r == absolutePath[|absolutePath| - |r|..]
    ensures r == absolutePath || absolutePath[|absolutePath| - |r| - 1] == '/'
  {
    GetFileNameIsSuffix(absolutePath);
    if '/' in absolutePath then GetFileName(absolutePath) else absolutePath
  }

  /** On a path with a '/', the intended file name is what `get_file_name` returns. */
  lemma FileNameAgreesWithSlash(s: string)
    requires '/' in s
    ensures FileName(s) == GetFileName(s)
  {
  }

  /* ----- process ----- */

  /** What `process` does that is visible from outside: lock actions and renames, in order. */
  datatype Action = Acquire | Release | Rename(src: string, dest: string)

  /** The two lines `process` reads from the created file. */
  datatype ControlFile = ControlFile(countLine: string, nameLine: string)


  /**
   * The name `process` builds, as written: `get_file_name` of the stripped second line,
   * without its last character.
   */
  function PartName(nameLine: string): string
  {
    SliceTo(GetFileName(Strip(nameLine)), -1)
  }

  /** The name `process` evidently means to build: the intended file name, without its last character. */
  function IntendedPartName(nameLine: string): (r: string)
    ensures '/' !in r
    ensures var p := Strip(nameLine); |r| < |p| || p == []
    ensures var p := Strip(nameLine); '/' in p ==> r == PartName(nameLine)
  {
    var p := Strip(nameLine);
    if '/' in p then FileNameAgreesWithSlash(p); SliceTo(FileName(p), -1)
    else SliceTo(FileName(p), -1)
  }

  /**
   * On a name line without '/', the part name `process` builds is the intended one without
   * its first character.
   */
  lemma BarePartNameLosesFirstCharacter(nameLine: string)
    requires '/' !in Strip(nameLine) && |Strip(nameLine)| >= 2
    ensures var p := Strip(nameLine);
      IntendedPartName(nameLine) == p[..|p| - 1] && PartName(nameLine) == p[1..|p| - 1]
  {
    var p := Strip(nameLine);
    GetFileNameIsSuffix(p);
    assert GetFileName(p) == p[1..];
    assert SliceEnd(|p| - 1, -1) == |p| - 2;
    assert p[1..][..|p| - 2] == p[1..|p| - 1];
  }

  /** The numbered part `i` of `name` under directory `dir`. */
  function PartPath(dir: string, name: string, i: nat): string
  {
    dir + name + "." + NatToString(i)
  }

  /** The rename of part `i`: from the FTP directory to the user directory. */
  function PartRename(name: string, i: nat): (string, string)
  {
    (PartPath(FTP_PATH, name, i), PartPath(USER_PATH, name, i))
  }

  /** `for i in xrange(1, count + 1)`: parts 1..count in ascending order, none when count < 1. */
  function Plan(name: string, count: int): (plan: seq<(string, string)>)
    ensures |plan| == if count < 0 then 0 else count
    ensures forall i :: 0 <= i < |plan| ==> plan[i] == PartRename(name, i + 1)
  {
    seq(if count < 0 then 0 else count, i requires 0 <= i => PartRename(name, i + 1))
  }

  /** `sys.maxint` on a 64-bit build: the largest value a C long holds. */
  const MAXINT: int := 0x7fff_ffff_ffff_ffff

  /** Whether `xrange` accepts `n` as a bound: it must fit in a C long, else OverflowError. */
  predicate FitsCLong(n: int)
  {
    -MAXINT - 1 <= n <= MAXINT
  }

  /**
   * The renames `process` performs for its control file, or `None` when `int(count)` raises
   * ValueError or `xrange(1, int(count) + 1)` raises OverflowError.
   */
  function RenamePlan(control: ControlFile): (plan: Option<seq<(string, string)>>)
    ensures var count := ParseInt(Strip(control.countLine));
      plan.Some? <==> count.Some? && FitsCLong(count.value + 1)
    ensures plan.Some? ==> plan.value == Plan(PartName(control.nameLine), ParseInt(Strip(control.countLine)).value)
  {
    match ParseInt(Strip(control.countLine))
    case None => None
    case Some(count) => if FitsCLong(count + 1) then Some(Plan(PartName(control.nameLine), count)) else None
  }

  /** A count of `sys.maxint` makes `process` raise before any rename. */
  lemma MaxIntCountRaises(control: ControlFile, renameOk: (string, string) -> bool)
    requires ParseInt(Strip(control.countLine)) == Some(MAXINT)
    ensures ProcessOutcome(Some(control), renameOk) == ([Acquire, Release], true)
  {
  }

  /** Different parts have different source paths. */
  lemma PlanSourcesDistinct(name: string, count: int, i: nat, j: nat)
    requires i < j < |Plan(name, count)|
    ensures Plan(name, count)[i].0 != Plan(name, count)[j].0
  {
    var plan := Plan(name, count);
    var prefix := FTP_PATH + name + ".";
    if plan[i].0 == plan[j].0 {
      assert plan[i].0 == prefix + NatToString(i + 1);
      assert plan[j].0 == prefix + NatToString(j + 1);
      assert NatToString(i + 1) == (prefix + NatToString(i + 1))[|prefix|..];
      assert NatToString(j + 1) == (prefix + NatToString(j + 1))[|prefix|..];
      ParseNatToString(i + 1);
      ParseNatToString(j + 1);
    }
  }

  /** How many renames of `plan` succeed before the first one that raises. */
  function Performed(plan: seq<(string, string)>, renameOk: (string, string) -> bool): (k: nat)
    ensures k <= |plan|
    ensures forall i :: 0 <= i < k ==> renameOk(plan[i].0, plan[i].1)
    ensures k < |plan| ==> !renameOk(plan[k].0, plan[k].1)
  {
    if plan == [] then 0
    else if renameOk(plan[0].0, plan[0].1) then 1 + Performed(plan[1..], renameOk)
    else 0
  }

  function RenameActions(plan: seq<(string, string)>): (r: seq<Action>)
    ensures |r| == |plan|
    ensures forall i :: 0 <= i < |plan| ==> r[i] == Rename(plan[i].0, plan[i].1)
  {
    seq(|plan|, i requires 0 <= i < |plan| => Rename(plan[i].0, plan[i].1))
  }

  /**
   * The actions of `process` and whether it raises. An unreadable file or a count `int`
   * rejects raises after the lock is taken; so does the first failing rename. The `try`
   * body releases the lock and the `finally` clause releases it again, so a normal run
   * releases twice and a raising one once.
   */
  function ProcessOutcome(control: Option<ControlFile>, renameOk: (string, string) -> bool): (seq<Action>, bool)
  {
    if control.None? || RenamePlan(control.value).None? then ([Acquire, Release], true)
    else PlanOutcome(RenamePlan(control.value).value, renameOk)
  }

  /** The actions of `process` and whether it raises, once the plan is known. */
  function PlanOutcome(plan: seq<(string, string)>, renameOk: (string, string) -> bool): (seq<Action>, bool)
  {
    var k := Performed(plan, renameOk);
    if k < |plan| then ([Acquire] + RenameActions(plan[..k]) + [Release], true)
    else ([Acquire] + RenameActions(plan) + [Release, Release], false)
  }

  function Occurrences(log: seq<Action>, a: Action): nat
  {
    if log == [] then 0 else Occurrences(log[..|log| - 1], a) + (if log[|log| - 1] == a then 1 else 0)
  }

  lemma {:induction false} OccurrencesAppend(a: seq<Action>, b: seq<Action>, x: Action)
    ensures Occurrences(a + b, x) == Occurrences(a, x) + Occurrences(b, x)
    decreases |b|
  {
    if b != [] {
      assert (a + b)[..|a + b| - 1] == a + b[..|b| - 1];
      OccurrencesAppend(a, b[..|b| - 1], x);
    } else {
      assert a + b == a;
    }
  }

  lemma {:induction false} NoLockActionsInRenames(plan: seq<(string, string)>)
    ensures Occurrences(RenameActions(plan), Acquire) == 0
    ensures Occurrences(RenameActions(plan), Release) == 0
    decreases |plan|
  {
    if plan != [] {
      assert RenameActions(plan)[..|plan| - 1] == RenameActions(plan[..|plan| - 1]);
      NoLockActionsInRenames(plan[..|plan| - 1]);
    }
  }

  /** A log made of one acquire, renames and one or two releases counts its lock actions so. */
  lemma LockCounts(renames: seq<(string, string)>, tail: seq<Action>)
    requires tail == [Release] || tail == [Release, Release]
    ensures Occurrences([Acquire] + RenameActions(renames) + tail, Acquire) == 1
    ensures Occurrences([Acquire] + RenameActions(renames) + tail, Release) == |tail|
  {
    NoLockActionsInRenames(renames);
    OccurrencesAppend([Acquire], RenameActions(renames), Acquire);
    OccurrencesAppend([Acquire] + RenameActions(renames), tail, Acquire);
    OccurrencesAppend([Acquire], RenameActions(renames), Release);
    OccurrencesAppend([Acquire] + RenameActions(renames), tail, Release);
    assert [Acquire][..0] == [] && [Release][..0] == [];
    if |tail| == 2 {
      assert tail[..1] == [Release];
    }
  }

  /**
   * The lock discipline of `process`: it acquires once, first; it releases twice when it
   * returns normally and once when it raises, last in both cases; a normal return has
   * performed every rename of the plan, in order.
   */
  lemma LockDiscipline(control: Option<ControlFile>, renameOk: (string, string) -> bool)
    ensures var (log, raised) := ProcessOutcome(control, renameOk);
      && log[0] == Acquire && log[|log| - 1] == Release
      && Occurrences(log, Acquire) == 1
      && Occurrences(log, Release) == (if raised then 1 else 2)
      && (!raised ==> control.Some? && RenamePlan(control.value).Some?
                      && log[1..|log| - 2] == RenameActions(RenamePlan(control.value).value))
  {
    var (log, raised) := ProcessOutcome(control, renameOk);
    if control.None? || RenamePlan(control.value).None? {
      assert log == [Acquire] + RenameActions([]) + [Release];
      LockCounts([], [Release]);
    } else {
      var plan := RenamePlan(control.value).value;
      var k := Performed(plan, renameOk);
      if k < |plan| {
        LockCounts(plan[..k], [Release]);
      } else {
        assert log == [Acquire] + RenameActions(plan) + [Release, Release];
        LockCounts(plan, [Release, Release]);
      }
    }
  }

  /** `n` renames succeed and the next one, if any, raises: `Performed` is `n`. */
  lemma PerformedIs(plan: seq<(string, string)>, renameOk: (string, string) -> bool, n: nat)
    requires n <= |plan|
    requires forall j :: 0 <= j < n ==> renameOk(plan[j].0, plan[j].1)
    requires n < |plan| ==> !renameOk(plan[n].0, plan[n].1)
    ensures Performed(plan, renameOk) == n
  {
  }

  /**
   * The rename loop of `process`: parts 1..count of `name` in order, stopping at the first
   * `os.rename` that raises. Returns the renames done and whether one raised.
   */
  method RenameParts(name: string, count: int, renameOk: (string, string) -> bool)
    returns (renames: seq<Action>, failed: bool)
    ensures var plan := Plan(name, count);
      var k := Performed(plan, renameOk);
      renames == RenameActions(plan[..k]) && failed == (k < |plan|)
  {
    ghost var plan := Plan(name, count);
    renames := [];
    var i := 1;
    while i <= count
      invariant 1 <= i <= |plan| + 1
      invariant forall j :: 0 <= j < i - 1 ==> renameOk(plan[j].0, plan[j].1)
      invariant renames == RenameActions(plan[..i - 1])
    {
      var src, dest := PartPath(FTP_PATH, name, i), PartPath(USER_PATH, name, i);
      assert plan[i - 1] == (src, dest);
      if !renameOk(src, dest) {
        PerformedIs(plan, renameOk, i - 1);
        return renames, true;
      }
      renames := renames + [Rename(src, dest)];
      assert RenameActions(plan[..i]) == RenameActions(plan[..i - 1]) + [Rename(src, dest)];
      i := i + 1;
    }
    PerformedIs(plan, renameOk, |plan|);
    assert plan[..i - 1] == plan[..|plan|];
    failed := false;
  }

  /**
   * `MyHandler.process`: take the lock, read the count and the name, rename part by part,
   * release; the `finally` clause releases once more. `control` is the created file's
   * first two lines, or `None` when it cannot be opened; `renameOk(src, dest)` says whether
   * `os.rename` succeeds.
   */
  method Process(control: Option<ControlFile>, renameOk: (string, string) -> bool)
    returns (log: seq<Action>, raised: bool)
    ensures (log, raised) == ProcessOutcome(control, renameOk)
  {
    if control.None? {
      return [Acquire, Release], true;
    }
    var count := ParseInt(Strip(control.value.countLine));
    var name := PartName(control.value.nameLine);
    if count.None? || !FitsCLong(count.value + 1) {
      return [Acquire, Release], true;
    }
    assert RenamePlan(control.value) == Some(Plan(name, count.value));
    log, raised := LockedRenames(name, count.value, renameOk);
  }

  /** The body of `process` once the count and the name are read: acquire, rename, release. */
  method LockedRenames(name: string, count: int, renameOk: (string, string) -> bool)
    returns (log: seq<Action>, raised: bool)
    ensures (log, raised) == PlanOutcome(Plan(name, count), renameOk)
  {
    ghost var plan := Plan(name, count);
    var renames, failed := RenameParts(name, count, renameOk);
    log := [Acquire] + renames;
    if failed {
      return log + [Release], true;
    }
    assert plan[..|plan|] == plan;
    log := log + [Release];   // lock.release() at the end of the try body
    log := log + [Release];   // lock.release() in the finally clause
    assert log == [Acquire] + RenameActions(plan) + [Release, Release];
    raised := false;
  }

  /** `on_created`: delegates to `process`. */
  method OnCreated(control: Option<ControlFile>, renameOk: (string, string) -> bool)
    returns (log: seq<Action>, raised: bool)
    ensures (log, raised) == ProcessOutcome(control, renameOk)
  {
    log, raised := Process(control, renameOk);
  }

  /* ----- the script ----- */

  /** A sequence without repeats has as many elements as its set. */
  lemma {:induction false} DistinctCardinality<T>(s: seq<T>)
    requires Distinct(s)
    ensures |set y | y in s| == |s|
  {
    if s != [] {
      assert Distinct(s[1..]) by {
        forall i, j | 0 <= i < j < |s| - 1
          ensures s[1..][i] != s[1..][j]
        {
          assert s[1..][i] == s[i + 1] && s[1..][j] == s[j + 1];
        }
      }
      DistinctCardinality(s[1..]);
      assert (set y | y in s) == {s[0]} + (set y | y in s[1..]);
      assert s[0] !in s[1..];
    }
  }

  /** A sequence without repeats holding exactly `x` is `[x]`. */
  lemma OnlyElement<T>(order: seq<T>, x: T)
    requires Distinct(order)
    requires forall y :: y in order <==> y == x
    ensures order == [x]
  {
    DistinctCardinality(order);
    assert (set y | y in order) == {x};
    assert order[0] in order;
  }

  /** The watch the script asks for: its first argument or '.', not recursive. */
  function ScriptWatch(args: seq<string>): (w: ObservedWatch)
    ensures !w.isRecursive
    ensures |args| > 0 ==> w.path == args[0]
    ensures args == [] ==> w.path == "."
  {
    ObservedWatch(if |args| > 0 then args[0] else ".", false)
  }

  /**
   * The `__main__` block up to its wait: a new observer schedules `handler` on the script's
   * watch and is started, which starts the watch's emitter before the dispatcher.
   */
  method RunScript(args: seq<string>, handler: HandlerId) returns (watcher: BaseObserver, watch: ObservedWatch)
    ensures fresh(watcher) && watcher.Valid()
    ensures watch == ScriptWatch(args)
    ensures watcher.state.watches == {watch} && watcher.state.handlers == map[watch := {handler}]
    ensures watcher.IsAlive()
    ensures exists e :: watcher.state.emitters == {e} && watcher.state.startLog == [EmitterThread(e), DispatcherThread]
  {
    watcher := new BaseObserver();
    var w := ScriptWatch(args);
    watch := watcher.Schedule(handler, w.path, w.isRecursive);
    assert watcher.state.handlers == map[watch := {handler}] by {
      assert HandlersOf(map[], watch) + {handler} == {handler};
    }
    var r, order := watcher.Start();
    var e := Emitter(0, watch);
    OnlyElement(order, e);
  }
}
