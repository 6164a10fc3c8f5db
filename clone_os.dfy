/**
 * clone_OS_bootable.py: the partition-path helpers, the decisions taken on the
 * exit codes of `diff` and of the GRUB probe, the fstab rewrite, and the
 * cleanup jobs `_main` registers.
 */
module CloneOs {

  import opened Common
  import opened Strings
  import opened Cleanup

  /** A failed `assert`, or a command that exited with a code the caller does not expect. */
  datatype CloneError = AssertionFailed | CalledProcess(code: int)

  // ---------------------------------------------------------------------------
  // partition paths
  // ---------------------------------------------------------------------------

  /** Where the maximal run of decimal digits at the end of `p` starts; the
      match of `[0-9]+$`, when there is one, is `p[TrailingDigitsStart(p)..]`. */
  function TrailingDigitsStart(p: string): (i: nat)
    ensures i <= |p|
    ensures AllDigits(p[i..])
    ensures i == 0 || !IsDigit(p[i - 1])
  {
    if |p| == 0 || !IsDigit(p[|p| - 1]) then |p|
    else
      var i := TrailingDigitsStart(p[..|p| - 1]);
      assert p[i..] == p[..|p| - 1][i..] + [p[|p| - 1]];
      i
  }

  /** `get_partition_number_by_device`: the trailing digit run; the assertion
      fails when the path does not end in a digit. */
  function PartitionNumber(p: string): (r: Result<string, CloneError>)
    ensures r.Ok? <==> |p| > 0 && IsDigit(p[|p| - 1])
    ensures r.Ok? ==> && |r.value| > 0 && AllDigits(r.value) && EndsWith(p, r.value)
                      && (|r.value| == |p| || !IsDigit(p[|p| - |r.value| - 1]))
    ensures r.Err? ==> r.error == AssertionFailed
  {
    var i := TrailingDigitsStart(p);
    if i == |p| then Err(AssertionFailed) else Ok(p[i..])
  }

  /** `get_device_by_partition`: the path without its trailing digit run; the
      assertion fails unless the result starts with `/dev/`. */
  function DeviceByPartition(p: string): (r: Result<string, CloneError>)
    ensures r.Ok? <==> StartsWith(p[..TrailingDigitsStart(p)], "/dev/")
    ensures r.Ok? ==> r.value == p[..TrailingDigitsStart(p)]
    ensures r.Ok? ==> StartsWith(r.value, "/dev/") && StartsWith(p, r.value)
    ensures r.Ok? ==> AllDigits(p[|r.value|..]) && (|r.value| == |p| || !IsDigit(r.value[|r.value| - 1]))
    ensures r.Err? ==> r.error == AssertionFailed
  {
    var device := p[..TrailingDigitsStart(p)];
    if StartsWith(device, "/dev/") then Ok(device) else Err(AssertionFailed)
  }

  /** Device and partition number put back together give the partition path. */
  lemma DeviceAndNumberRebuildPartition(p: string)
    requires PartitionNumber(p).Ok? && DeviceByPartition(p).Ok?
    ensures DeviceByPartition(p).value + PartitionNumber(p).value == p
    ensures |DeviceByPartition(p).value| < |p|
  {
    var i := TrailingDigitsStart(p);
    assert p == p[..i] + p[i..];
  }

  /** `/dev/sdb2` is partition `2` of `/dev/sdb`; a path without trailing
      digits has no partition number. */
  lemma PartitionExamples()
    ensures PartitionNumber("/dev/sdb12") == Ok("12")
    ensures DeviceByPartition("/dev/sdb12") == Ok("/dev/sdb")
    ensures PartitionNumber("/dev/sdb") == Err(AssertionFailed)
  {
    var p := "/dev/sdb12";
    assert p[..8] == "/dev/sdb";
    assert "/dev/sdb"[..5] == "/dev/";
    assert TrailingDigitsStart(p[..9]) == 8;
    assert TrailingDigitsStart(p) == 8;
    assert TrailingDigitsStart("/dev/sdb") == 8;
  }

  // ---------------------------------------------------------------------------
  // decisions on exit codes
  // ---------------------------------------------------------------------------

  /** `dirs_differ`: whether exactly one side is a directory decides at once;
      otherwise `diff -qr` runs and exits with `diffExit`: 0 means equal,
      1 means different, anything else is re-raised. */
  function DirsDiffer(aIsDir: bool, bIsDir: bool, diffExit: int): (r: Result<bool, CloneError>)
    ensures r.Ok? <==> aIsDir != bIsDir || diffExit == 0 || diffExit == 1
    ensures r.Ok? ==> (r.value <==> aIsDir != bIsDir || diffExit == 1)
    ensures r.Err? ==> r.error == CalledProcess(diffExit)
  {
    if aIsDir != bIsDir then Ok(true)
    else if diffExit == 0 then Ok(false)
    else if diffExit == 1 then Ok(true)
    else Err(CalledProcess(diffExit))
  }

  /** `grub_is_installed`: the probe pipeline exits 0 when the boot sector
      mentions GRUB and 1 when it does not; any other failure is re-raised. */
  function GrubIsInstalled(probeExit: int): (r: Result<bool, CloneError>)
    ensures r.Ok? <==> probeExit == 0 || probeExit == 1
    ensures r.Ok? ==> (r.value <==> probeExit == 0)
    ensures r.Err? ==> r.error == CalledProcess(probeExit)
  {
    if probeExit == 0 then Ok(true)
    else if probeExit == 1 then Ok(false)
    else Err(CalledProcess(probeExit))
  }

  // ---------------------------------------------------------------------------
  // fstab rewrite
  // ---------------------------------------------------------------------------

  /** One fstab line after the two `str.replace` calls. */
  function RewriteLine(line: string, srcPartition: string, destPartition: string,
                       srcUuid: string, destUuid: string): string
    requires |srcPartition| > 0 && |srcUuid| > 0
  {
    ReplaceAll(ReplaceAll(line, srcPartition, destPartition), srcUuid, destUuid)
  }

  /** The loop over `FileInput(..., inplace=True)`: every line is written back
      rewritten, one output line per input line. The source partition starts
      with `/dev/` and the UUID has 36 characters, as the assertions of
      `get_device_by_mount_point` and `get_uuid_by_partition` guarantee. */
  method RewriteFstab(lines: seq<string>, srcPartition: string, destPartition: string,
                      srcUuid: string, destUuid: string) returns (written: seq<string>)
    requires StartsWith(srcPartition, "/dev/") && |srcUuid| == 36
    ensures |written| == |lines|
    ensures forall i :: 0 <= i < |lines| ==>
      written[i] == RewriteLine(lines[i], srcPartition, destPartition, srcUuid, destUuid)
  {
    written := [];
    for i := 0 to |lines|
      invariant |written| == i
      invariant forall j :: 0 <= j < i ==>
        written[j] == RewriteLine(lines[j], srcPartition, destPartition, srcUuid, destUuid)
    {
      var line := ReplaceAll(lines[i], srcPartition, destPartition);
      line := ReplaceAll(line, srcUuid, destUuid);
      written := written + [line];
    }
  }

  /** A line that mentions neither the source partition nor the source UUID is
      written back unchanged. */
  lemma UnrelatedLineUnchanged(line: string, srcPartition: string, destPartition: string,
                               srcUuid: string, destUuid: string)
    requires |srcPartition| > 0 && |srcUuid| > 0
    requires !Contains(line, srcPartition) && !Contains(line, srcUuid)
    ensures RewriteLine(line, srcPartition, destPartition, srcUuid, destUuid) == line
  {
    ReplaceAbsent(line, srcPartition, destPartition);
    ReplaceAbsent(line, srcUuid, destUuid);
  }

  /** Each replacement cuts the line at every occurrence of the old text and
      glues the pieces, none of which still contains it, with the new text. */
  lemma ReplaceCutsAtEveryOccurrence(line: string, pat: string, rep: string)
    requires |pat| > 0
    ensures ReplaceAll(line, pat, rep) == Join(Split(line, pat), rep)
    ensures Join(Split(line, pat), pat) == line
    ensures forall k :: 0 <= k < |Split(line, pat)| ==> !Contains(Split(line, pat)[k], pat)
  {
    ReplaceIsJoinOfSplit(line, pat, rep);
    JoinSplit(line, pat);
    SplitPiecesAvoidSeparator(line, pat);
  }

  // ---------------------------------------------------------------------------
  // cleanup jobs of _main
  // ---------------------------------------------------------------------------

  datatype CloneJob = Sync | Rmdir(path: string) | Umount(path: string)

  /** One unmount job per path, in the order of `paths`. */
  function Umounts(paths: seq<string>): (r: seq<CloneJob>)
    ensures |r| == |paths| && forall i :: 0 <= i < |r| ==> r[i] == Umount(paths[i])
  {
    seq(|paths|, i requires 0 <= i < |paths| => Umount(paths[i]))
  }

  /** The jobs `_main` registers after `sync`: removing the mount point,
      unmounting the target file system, and unmounting the three bind mounts. */
  function UnmountJobs(destBase: string): seq<CloneJob> {
    [Rmdir(destBase)]
    + Umounts([destBase, PathJoin(destBase, "proc"), PathJoin(destBase, "sys"), PathJoin(destBase, "dev")])
  }

  /** Every cleanup job `_main` registers, in registration order: `sync`
      first, then the unmount jobs. */
  function CloneJobs(destBase: string): seq<CloneJob> {
    [Sync] + UnmountJobs(destBase)
  }

  /** The jobs registered when `_main` stops (returns or raises) after
      `reached` registrations. */
  function RegisteredJobs(destBase: string, reached: nat): (r: seq<CloneJob>)
    ensures |r| <= 6
  {
    CloneJobs(destBase)[..if reached < 6 then reached else 6]
  }

  /** The `try`/`finally` of the script's `__main__` once `_main` has
      registered `jobs` and returned (or raised, when `mainRaises`):
      `do_jobs` drains the jobs, and an exception of a cleanup job replaces
      the one `_main` raised. */
  method MainFinally<J(==)>(jobs: seq<J>, mainRaises: bool, fails: set<J>)
    returns (t: Termination<J>, ran: seq<J>)
    ensures ran == Drained(jobs, fails)
    ensures t.CleanupRaised? ==> |ran| > 0 && t.job in fails && t.job == ran[|ran| - 1]
    ensures var k := FirstFailing(Reverse(jobs), fails);
      t == if k < |jobs| then CleanupRaised(Reverse(jobs)[k])
           else if mainRaises then MainRaised else Success
  {
    var cleaner := Registered(jobs);
    var drained := cleaner.DoJobs(fails);
    ran := cleaner.ran;
    if drained.Raised? {
      t := CleanupRaised(drained.job);
    } else if mainRaises {
      t := MainRaised;
    } else {
      t := Success;
    }
  }

  /** The script's `__main__`: `_main` registers the clone's cleanup jobs up
      to `reached` and returns or raises; `do_jobs` runs in the `finally`
      clause either way. */
  method CloneMain(destBase: string, reached: nat, mainRaises: bool, fails: set<CloneJob>)
    returns (t: Termination<CloneJob>, ran: seq<CloneJob>)
    ensures ran == Drained(RegisteredJobs(destBase, reached), fails)
    ensures t.CleanupRaised? ==> |ran| > 0 && t.job in fails && t.job == ran[|ran| - 1]
    ensures var jobs := RegisteredJobs(destBase, reached);
      var k := FirstFailing(Reverse(jobs), fails);
      t == if k < |jobs| then CleanupRaised(Reverse(jobs)[k])
           else if mainRaises then MainRaised else Success
  {
    t, ran := MainFinally(RegisteredJobs(destBase, reached), mainRaises, fails);
  }

  /** `sync` is the first registered job and no other job is `sync`. */
  lemma OnlyFirstIsSync(destBase: string, reached: nat)
    requires reached >= 1
    ensures var jobs := RegisteredJobs(destBase, reached);
      && |jobs| >= 1 && jobs[0] == Sync
      && forall i :: 1 <= i < |jobs| ==> jobs[i] != Sync
  {
    var jobs := RegisteredJobs(destBase, reached);
    var rest := UnmountJobs(destBase);
    forall i | 1 <= i < |jobs| ensures jobs[i] != Sync {
      assert jobs[i] == rest[i - 1];
      if i > 1 {
        assert rest[i - 1] == rest[1..][i - 2];
      }
    }
  }

  /** `sync` is registered first, so whenever it runs it is the last cleanup
      job. */
  lemma SyncRunsLast(destBase: string, reached: nat, fails: set<CloneJob>)
    requires reached >= 1
    ensures var ran := Drained(RegisteredJobs(destBase, reached), fails);
      Sync in ran ==> ran[|ran| - 1] == Sync
  {
    OnlyFirstIsSync(destBase, reached);
    FirstRegisteredRunsLast(RegisteredJobs(destBase, reached), fails, Sync);
  }

  /** `sync` runs exactly when no job registered after it raises. */
  lemma SyncRunsUnlessLaterJobRaises(destBase: string, reached: nat, fails: set<CloneJob>)
    requires reached >= 1
    ensures var jobs := RegisteredJobs(destBase, reached);
      Sync in Drained(jobs, fails) <==> forall i :: 1 <= i < |jobs| ==> jobs[i] !in fails
  {
    OnlyFirstIsSync(destBase, reached);
    FirstRegisteredRunsLast(RegisteredJobs(destBase, reached), fails, Sync);
  }
}
