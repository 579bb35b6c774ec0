/**
 * The virtual-device script: check the arguments, create the mount directory when it is
 * missing, write a disk image of the requested size, make an ext3 file system on it, find
 * the first loop device that `/proc/mounts` does not mention, mount the image there and
 * show the result with `df`.
 *
 * `argv` includes the program name, as `sys.argv` does. The file system, the shell and
 * `/proc/mounts` are inputs: whether the mount directory exists, the lines of
 * `/proc/mounts`, and whether each `check_call` command exits with status 0.
 */
module Vfs {
  import opened Wrappers
  import opened Text

  /** What the script does to the outside world, in order. */
  datatype Step =
    | MakeDirs(path: string)
    | Truncate(path: string)              // open(path, "w")
    | WriteNul(path: string, offset: nat) // seek(offset); write("\0")
    | Shell(command: string)

  /** How the script ends: `sys.exit(code)`, an uncaught exception, or falling off the end. */
  datatype Ending = Exited(code: int) | Raised | Completed

  /* ----- arguments and sizes ----- */

  /** The block unit's multiplier: decimal bytes, kilobytes and megabytes; `None` for any other unit. */
  function Multiplier(unit: string): (m: Option<nat>)
    ensures unit == "b" <==> m == Some(1)
    ensures unit == "kb" <==> m == Some(1000)
    ensures unit == "mb" <==> m == Some(1000000)
    ensures m.None? <==> unit != "b" && unit != "kb" && unit != "mb"
  {
    if unit == "b" then Some(1)
    else if unit == "kb" then Some(1000)
    else if unit == "mb" then Some(1000000)
    else None
  }

  function Zeros(n: nat): (z: seq<bv8>)
    ensures |z| == n && forall i :: 0 <= i < n ==> z[i] == 0
  {
    seq(n, _ => 0)
  }

  /**
   * The file contents after seeking to `offset` and writing `data`: a seek past the end
   * leaves a gap that reads back as zero bytes.
   */
  function WriteAt(content: seq<bv8>, offset: nat, data: seq<bv8>): (r: seq<bv8>)
    ensures |r| == if offset + |data| > |content| then offset + |data| else |content|
    ensures r[offset..offset + |data|] == data
    ensures forall i :: 0 <= i < offset ==> r[i] == if i < |content| then content[i] else 0
    ensures forall i :: offset + |data| <= i < |r| ==> r[i] == content[i]
  {
    var padded := if offset > |content| then content + Zeros(offset - |content|) else content;
    var r := padded[..offset] + data + if offset + |data| < |padded| then padded[offset + |data|..] else [];
    assert r[offset..offset + |data|] == data;
    r
  }

  /** The image `size` bytes long after a fresh truncation is `size + 1` zero bytes. */
  lemma ImageLength(size: nat)
    ensures WriteAt([], size, [0]) == Zeros(size + 1)
  {
    var r := WriteAt([], size, [0]);
    assert r[size] == r[size..size + 1][0];
  }

  /* ----- loop devices ----- */

  /** The loop device name for index `x`. */
  function LoopName(x: nat): string
  {
    "loop" + NatToString(x)
  }

  /** `grep -c` over `/proc/mounts` for the loop name. */
  function GrepCommand(x: nat): string
  {
    "grep -c '" + LoopName(x) + "' /proc/mounts"
  }

  /** Some line of `/proc/mounts` mentions `loop<x>` as a substring. */
  predicate LoopBusy(mounts: seq<string>, x: nat)
  {
    exists line :: line in mounts && Contains(line, LoopName(x))
  }

  /** grep's exit status: 0 when some line matches the (metacharacter-free) pattern, 1 when none does. */
  function GrepStatus(mounts: seq<string>, x: nat): (status: int)
    ensures status == 0 <==> LoopBusy(mounts, x)
    ensures status == 1 <==> !LoopBusy(mounts, x)
  {
    if LoopBusy(mounts, x) then 0 else 1
  }

  function MaxLength(lines: seq<string>): (n: nat)
    ensures forall line :: line in lines ==> |line| <= n
  {
    if lines == [] then 0
    else
      var rest := MaxLength(lines[1..]);
      assert forall line :: line in lines ==> line == lines[0] || line in lines[1..];
      if |lines[0]| > rest then |lines[0]| else rest
  }

  /** An index with more digits than the longest mounts line is free, so the search ends. */
  lemma {:induction false} FreeBeyondLongestLine(mounts: seq<string>, x: nat)
    requires x >= Pow10(MaxLength(mounts))
    ensures !LoopBusy(mounts, x)
  {
    NatToStringLength(x, MaxLength(mounts));
    forall line | line in mounts
      ensures !Contains(line, LoopName(x))
    {
      NotContainsLonger(line, LoopName(x));
    }
  }

  /** A mounted `loop10` makes `loop1` look busy: the match is on substrings. */
  lemma Loop10ShadowsLoop1()
    ensures LoopBusy(["/dev/loop10 /mnt"], 1)
  {
    var line := "/dev/loop10 /mnt";
    assert LoopName(1) == "loop1";
    assert line[5..][..5] == "loop1";
    assert line in ["/dev/loop10 /mnt"];
  }

  /* ----- commands ----- */

  function MkfsCommand(image: string): string
  {
    "mkfs -t ext3 -q " + image
  }

  function MountCommand(loop: nat, image: string, dir: string): string
  {
    "mount -o loop=/dev/" + LoopName(loop) + " " + image + " " + dir
  }

  function DfCommand(dir: string): string
  {
    "df -hT " + dir
  }

  /** The grep probes of loop indices 0..n-1, in order. */
  function Probes(n: nat): (r: seq<Step>)
    ensures |r| == n && forall y :: 0 <= y < n ==> r[y] == Shell(GrepCommand(y))
  {
    seq(n, y requires 0 <= y => Shell(GrepCommand(y)))
  }

  lemma ProbesGrow(n: nat)
    ensures Probes(n + 1) == Probes(n) + [Shell(GrepCommand(n))]
  {
  }

  /** The directory creation, when the directory is missing, then the truncation of the image. */
  function Setup(argv: seq<string>, pathExists: bool): seq<Step>
    requires |argv| == 5
  {
    (if pathExists then [] else [MakeDirs(argv[4])]) + [Truncate(argv[1])]
  }

  /** The script reaches its loop-device search: good arguments and a successful mkfs. */
  predicate SearchesLoop(argv: seq<string>, commandOk: string -> bool)
  {
    && |argv| == 5 && Multiplier(argv[3]).Some? && ParseNat(argv[2]).Some?
    && commandOk(MkfsCommand(argv[1]))
  }

  /**
   * The steps, the ending and the image contents (`None` when it is never opened) of a run
   * whose loop search, if it happens, settles on index `loop`.
   */
  function Script(argv: seq<string>, pathExists: bool, commandOk: string -> bool, loop: nat)
    : (seq<Step>, Ending, Option<seq<bv8>>)
  {
    if |argv| != 5 then ([], Exited(-1), None)
    else
      var setup := Setup(argv, pathExists);
      match Multiplier(argv[3])
      case None => (setup, Exited(1), Some([]))
      case Some(m) =>
        match ParseNat(argv[2])
        case None => (setup, Raised, Some([]))
        case Some(size) =>
          var written := setup + [WriteNul(argv[1], size * m), Shell(MkfsCommand(argv[1]))];
          var image := Some(WriteAt([], size * m, [0]));
          if !commandOk(MkfsCommand(argv[1])) then (written, Raised, image)
          else
            var mount := MountCommand(loop, argv[1], argv[4]);
            var mounted := written + Probes(loop + 1) + [Shell(mount)];
            if !commandOk(mount) then (mounted, Raised, image)
            else
              var df := DfCommand(argv[4]);
              (mounted + [Shell(df)], if commandOk(df) then Completed else Raised, image)
  }

  /** An unknown unit exits with 1, but only after the image file has been truncated. */
  lemma UnknownUnitTruncatesFirst(argv: seq<string>, pathExists: bool, commandOk: string -> bool, loop: nat)
    requires |argv| == 5 && argv[3] != "b" && argv[3] != "kb" && argv[3] != "mb"
    ensures var (steps, ending, image) := Script(argv, pathExists, commandOk, loop);
      && ending == Exited(1) && image == Some([])
      && steps[|steps| - 1] == Truncate(argv[1])
      && Shell(MkfsCommand(argv[1])) !in steps
  {
  }

  /** With a good size, the image is size × multiplier + 1 zero bytes long. */
  lemma ImageIsSizePlusOne(argv: seq<string>, pathExists: bool, commandOk: string -> bool, loop: nat)
    requires |argv| == 5 && Multiplier(argv[3]).Some? && ParseNat(argv[2]).Some?
    ensures Script(argv, pathExists, commandOk, loop).2
         == Some(Zeros(ParseNat(argv[2]).value * Multiplier(argv[3]).value + 1))
  {
    ImageLength(ParseNat(argv[2]).value * Multiplier(argv[3]).value);
  }

  /** The mount directory is created exactly when it is missing, and as the first step. */
  lemma MakeDirsOnlyWhenMissing(argv: seq<string>, pathExists: bool, commandOk: string -> bool, loop: nat)
    requires |argv| == 5
    ensures var steps := Script(argv, pathExists, commandOk, loop).0;
      && (forall i :: 0 <= i < |steps| && steps[i].MakeDirs? ==> i == 0 && steps[i] == MakeDirs(argv[4]))
      && (!pathExists <==> steps[0] == MakeDirs(argv[4]))
  {
    var steps := Script(argv, pathExists, commandOk, loop).0;
    var setup := Setup(argv, pathExists);
    assert steps[..|setup|] == setup;
    forall i | |setup| <= i < |steps|
      ensures !steps[i].MakeDirs?
    {
    }
  }

  /**
   * The `while True` search: probe `loop0`, `loop1`, ... with grep until one is absent from
   * every line of `/proc/mounts`. Returns that index and the probes run.
   */
  method FindFreeLoop(mounts: seq<string>) returns (x: nat, probes: seq<Step>)
    ensures !LoopBusy(mounts, x) && forall y :: 0 <= y < x ==> LoopBusy(mounts, y)
    ensures probes == Probes(x + 1)
  {
    x := 0;
    probes := [];
    ghost var bound := Pow10(MaxLength(mounts));
    while true
      invariant x <= bound
      invariant forall y :: 0 <= y < x ==> LoopBusy(mounts, y)
      invariant probes == Probes(x)
      decreases bound - x
    {
      var check := GrepCommand(x);
      probes := probes + [Shell(check)];
      ProbesGrow(x);
      var down := GrepStatus(mounts, x);
      if down == 1 {
        return;
      }
      if x == bound {
        FreeBeyondLongestLine(mounts, x);
      }
      x := x + 1;
    }
  }

  /**
   * The script from its argument check to its last command. `pathExists` says whether
   * `argv[4]` exists, `mounts` is `/proc/mounts`, and `commandOk(c)` says whether the shell
   * command `c` exits with status 0 (`check_call` raises otherwise). The loop search picks
   * the least index no mounts line mentions.
   */
  method Provision(argv: seq<string>, pathExists: bool, mounts: seq<string>, commandOk: string -> bool)
    returns (steps: seq<Step>, ending: Ending, image: Option<seq<bv8>>, loop: nat)
    ensures |argv| != 5 ==> steps == [] && ending == Exited(-1) && image == None
    ensures SearchesLoop(argv, commandOk) ==>
      !LoopBusy(mounts, loop) && forall y :: 0 <= y < loop ==> LoopBusy(mounts, y)
    ensures (steps, ending, image) == Script(argv, pathExists, commandOk, loop)
  {
    loop := 0;
    if |argv| != 5 {
      return [], Exited(-1), None, loop;
    }
    steps := Setup(argv, pathExists);
    image := Some([]);
    var multiplier := Multiplier(argv[3]);
    if multiplier.None? {
      return steps, Exited(1), image, loop;
    }
    var size := ParseNat(argv[2]);
    if size.None? {
      return steps, Raised, image, loop;
    }
    var offset := size.value * multiplier.value;
    image := Some(WriteAt([], offset, [0]));
    var mkfs := MkfsCommand(argv[1]);
    steps := steps + [WriteNul(argv[1], offset), Shell(mkfs)];
    if !commandOk(mkfs) {
      return steps, Raised, image, loop;
    }
    var probes;
    loop, probes := FindFreeLoop(mounts);
    var mount := MountCommand(loop, argv[1], argv[4]);
    steps := steps + probes + [Shell(mount)];
    if !commandOk(mount) {
      return steps, Raised, image, loop;
    }
    var df := DfCommand(argv[4]);
    steps := steps + [Shell(df)];
    ending := if commandOk(df) then Completed else Raised;
  }
}
