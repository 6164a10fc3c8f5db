# Admin-script cores, modelled and proved in Dafny

This project models the decision logic of a small collection of Python
system-administration scripts and proves what those scripts promise:

- **softquota.py** converts a human-readable size such as `10G` into bytes,
  using powers of 1024 (or 1000 with `--metric`). It adds up the bytes used
  on the given mounts and raises the alarm when the sum is strictly above
  the quota (module `SoftQuota`).
- **cli-application-template.py** and **clone_OS_bootable.py** share the
  `Cleaner`. It is a list of cleanup jobs that grows by `append` and is
  drained by `pop`, inside the `finally` clause of the script's `main`
  (module `Cleanup`, class `Cleaner`).
- **clone_OS_bootable.py** also has partition-path helpers (the trailing
  partition number and the device path), the decisions taken on the exit
  codes of `diff` and of the GRUB probe, the fstab rewrite, and the cleanup
  jobs `_main` registers (module `CloneOs`).
- **linkchecker_cron_wrapper.py** runs `linkchecker` under its own
  arguments. When the run fails, it echoes only the part of the output that
  lists broken links (module `LinkChecker`).
- **tmp_encfs_reverse.py** covers:
  - the argument checks;
  - reading the paths file into the map from directory name to path;
  - the `encfs --reverse` argument vector;
  - the paths the unmount mode works on (module `Encfs`).
- **real-time_settings.py** and **real-time_helper.py** share one
  `ActionBase` (module `RealTimeActions`, class `ActionBase`):
  - the systemd service cache, which is filled once from
    `systemctl list-unit-files`;
  - `execute_safely` and its simulate mode;
  - the real-time kernel check, and the `Cron` and `Tlp` actions.

  Each script adds its own dispatch. The newer script has `--list` and
  CPU frequency scaling (module `RealTimeSettings`). The older one has
  neither (module `RealTimeHelper`); it is proved to do exactly what the
  newer one does, minus the frequency scaling.
- **ensure_home_for_group.py** and **ensure_shell_for_group.py** build the
  user list of a group: its members, then the users whose primary group it
  is. They give each listed user a home directory (with `%u` expanded) or a
  login shell, issuing `usermod` or `chsh` only where the current value
  differs. The shared database logic is in module `Accounts`; the two
  scripts are modules `GroupHome` and `GroupShell`.

External effects become inputs of the model:
- exit codes of `diff`, of the GRUB probe and of `linkchecker`, and the
  output of `linkchecker`;
- `statvfs` results;
- the set of existing directories (`isdir`) and the set of executable files;
- the password and group databases;
- the text of `systemctl list-unit-files`, the first line of
  `/sys/kernel/realtime`, `uname`, the CPU count and the user id;
- which cleanup jobs raise.

What the scripts do to the system is recorded as a sequence of effects or
events: commands executed or simulated, messages printed or logged, and
cleanup jobs called.

Each script is modelled as its code is written.

Shared helpers:
- `Common` holds `Option` and `Result`.
- `Strings` models the parts of Python's `str` and `posixpath` that the
  scripts rely on: `startswith`, `endswith`, `in`, `split`, `replace`,
  `strip`, `rstrip`, `int` on digit strings, `basename`, `dirname` and
  `join`.

## Model

| member | source | states |
|---|---|---|
| SoftQuota.NewConverter | softquota.py:23-27 | the base is 1000 exactly when `metric` is set, and 1024 otherwise |
| SoftQuota.FactorForPrefix | softquota.py:32-33 | a prefix in the table yields the base raised to its exponent; any other prefix is the `KeyError` |
| SoftQuota.FactorTable | softquota.py:9-19 | no prefix gives factor 1; `K`, `G` and `Y` give base¹, base³ and base⁸, written out for both bases |
| SoftQuota.LowerCaseKRejected | softquota.py:9-19 | a valid number followed by lower-case `k` is rejected with the unknown-prefix error |
| SoftQuota.HasPrefix | softquota.py:35-36 | an empty size is the `IndexError`; otherwise the answer is whether the last character is not a decimal digit |
| SoftQuota.GetPrefix | softquota.py:38-42 | the prefix is the last character exactly when it is not a digit, and none when it is a digit; empty input is an error |
| SoftQuota.ExtractInt | softquota.py:44-47 | succeeds iff the string is non-empty and its number part (the whole string when it ends in a digit, otherwise all but the last character) is a non-empty decimal digit string, with that part's decimal value; an empty string is the `IndexError`, any other failure the `ValueError` of `int()` on the number part |
| SoftQuota.PrefixAloneRejected | softquota.py:44-47 | a prefix letter with no number before it is the `ValueError` of `int("")` |
| SoftQuota.HumanReadableToBytes | softquota.py:49-58 | succeeds iff the prefix is read, the number parses and the prefix is in the table, giving the number times the base raised to the prefix's exponent; errors come in the source's order: `IndexError` for an empty size, then the `ValueError` of the number, then the `KeyError` of the last character |
| SoftQuota.RenderedSizeRoundTrip | softquota.py:49-58 | reading back a decimal number with an optional table prefix gives number × factor, and the number itself without a prefix |
| SoftQuota.BytesUsed | softquota.py:83-87 | used bytes are between 0 and blocks × fragment size when free ≤ total, and 0 for an empty mount or zero fragment size |
| SoftQuota.TotalUsedConcat | softquota.py:111-115 | the sum over the mounts is additive over concatenated mount lists |
| SoftQuota.QuotaExceeded | softquota.py:106-118 | the result is an error exactly when the quota string cannot be converted; otherwise the alarm fires iff the total is strictly greater than the quota |
| SoftQuota.MainEnding | softquota.py:118-127 | silent iff usage is at or below the quota; above it, the critical report iff the quota ends in a prefix letter, otherwise the `TypeError` of `str(...) + None` in `bytes_to_human_readable` (softquota.py:63) |
| SoftQuota.BareQuotaNeverReported | softquota.py:60-63 | a quota written as a bare number that usage exceeds ends in the `TypeError`, never in the report |
| SoftQuota.AtQuotaIsNotExceeded | softquota.py:118 | usage exactly equal to the quota raises no alarm |
| SoftQuota.MoreMountsKeepAlarm | softquota.py:111-118 | adding a mount never silences an alarm |
| Cleanup.ReverseIsPermutation | cli-application-template.py:32-43 | a full drain calls every registered job exactly as often as it was registered |
| Cleanup.ReverseAppend | cli-application-template.py:28-40 | a job added last is the first one drained, before the older jobs in their drain order |
| Cleanup.DrainedAll | cli-application-template.py:32-43 | the drain calls every job exactly when no job but the oldest raises; it calls them newest first, and the oldest last |
| Cleanup.FirstRegisteredRunsLast | cli-application-template.py:32-43 | a job registered first (and only once) is the last called whenever it is called, and it is called iff no later job raises |
| Cleanup.Registered | cli-application-template.py:28-30 | registering jobs one by one on a fresh cleaner leaves exactly those jobs, oldest first, with nothing called |
| Cleanup.Cleaner.constructor | cli-application-template.py:24-26 | a new cleaner holds no jobs |
| Cleanup.Cleaner.AddJob | cli-application-template.py:28-30 | exactly one job is appended at the end; earlier jobs and calls are unchanged |
| Cleanup.Cleaner.DoOneJob | cli-application-template.py:37-43 | the newest job is removed before it is called; popping an empty list fails and changes nothing |
| Cleanup.Cleaner.DoAllJobs | cli-application-template.py:32-35 | jobs are called newest first up to the first one that raises; older jobs stay queued; when none raises the list ends empty and every job ran once in reverse order |
| Cleanup.Cleaner.DoJobs | clone_OS_bootable.py:71-77 | the single-loop drain of the second script has the same contract as `do_all_jobs` |
| Cleanup.RunMain | cli-application-template.py:94-104 | the cleanup jobs run whether the main procedure returns or raises; a raising cleanup job's exception replaces the main one |
| CloneOs.TrailingDigitsStart | clone_OS_bootable.py:61 | the match of `[0-9]+$` is the maximal run of digits at the end: all digits, and not preceded by a digit |
| CloneOs.PartitionNumber | clone_OS_bootable.py:147-153 | succeeds iff the path ends in a digit, and then yields the maximal non-empty trailing digit run; fails the assertion otherwise |
| CloneOs.DeviceByPartition | clone_OS_bootable.py:155-158 | succeeds iff the path without its maximal trailing digit run starts with `/dev/`, and then returns exactly that path; otherwise the assertion fails |
| CloneOs.DeviceAndNumberRebuildPartition | clone_OS_bootable.py:147-158 | the device followed by the partition number is the partition path, and the device is strictly shorter |
| CloneOs.PartitionExamples | clone_OS_bootable.py:147-158 | `/dev/sdb12` is partition `12` of `/dev/sdb`; `/dev/sdb` has no partition number |
| CloneOs.DirsDiffer | clone_OS_bootable.py:103-112 | exactly one side a directory → differ; otherwise `diff` exit 0 → equal, 1 → differ, any other code re-raised |
| CloneOs.GrubIsInstalled | clone_OS_bootable.py:114-131 | probe exit 0 → installed, 1 → not installed, any other code re-raised |
| CloneOs.RewriteFstab | clone_OS_bootable.py:260-264 | one output line per input line, each with every source partition and then every source UUID replaced |
| CloneOs.UnrelatedLineUnchanged | clone_OS_bootable.py:262-263 | a line mentioning neither the source partition nor the source UUID is written back unchanged |
| CloneOs.ReplaceCutsAtEveryOccurrence | clone_OS_bootable.py:262-263 | each replacement cuts the line at every occurrence of the old text; no piece still contains it, and gluing the pieces with the old text gives the line back |
| CloneOs.CloneMain | clone_OS_bootable.py:286-298 | the jobs registered so far are drained whether `_main` returns or raises; the script ends with the exception of the first cleanup job that raises, else with the main exception, else normally |
| CloneOs.MainFinally | clone_OS_bootable.py:288-298 | for any registered jobs, `do_jobs` in the `finally` clause drains them newest first, and a raising cleanup job's exception replaces the one `_main` raised |
| CloneOs.OnlyFirstIsSync | clone_OS_bootable.py:205-253 | `sync` is the first registered job, and no job registered after it is `sync` |
| CloneOs.SyncRunsLast | clone_OS_bootable.py:204-205 | `sync`, registered first, is the last cleanup job whenever it runs |
| CloneOs.SyncRunsUnlessLaterJobRaises | clone_OS_bootable.py:71-77 | `sync` runs iff none of the jobs registered after it raises |
| LinkChecker.InvokedArgs | linkchecker_cron_wrapper.py:13-14 | same length as `argv`, element 0 is `linkchecker`, all others unchanged |
| LinkChecker.SplitLines | linkchecker_cron_wrapper.py:24 | no resulting line contains a line boundary; the text is empty iff there are no lines |
| LinkChecker.SplitLinesRoundTrip | linkchecker_cron_wrapper.py:24 | for text whose boundaries are all `\n`, joining the lines with `\n` gives the text back, apart from one final `\n` |
| LinkChecker.Headed | linkchecker_cron_wrapper.py:27-35 | each `Start checking ` line becomes the header; every other line is kept as is, in place |
| LinkChecker.PrefixesExclusive | linkchecker_cron_wrapper.py:27-32 | no line starts with both `Start checking ` and `Statistics:` |
| LinkChecker.FilterWhilePrinting | linkchecker_cron_wrapper.py:26-35 | once printing, the output is every line before the first `Statistics:` line, with start lines shown as the header |
| LinkChecker.FilterIsSegment | linkchecker_cron_wrapper.py:26-35 | the output is the contiguous stretch from the first start line to the first `Statistics:` line, headed, in original order |
| LinkChecker.NothingBeforeStart | linkchecker_cron_wrapper.py:33-34 | without a `Start checking ` line nothing is printed |
| LinkChecker.StatisticsEndsOutput | linkchecker_cron_wrapper.py:31-32 | nothing from a `Statistics:` line on affects the output, even before printing has begun |
| LinkChecker.Wrapper | linkchecker_cron_wrapper.py:16-35 | exit code 0 prints nothing; otherwise the loop prints exactly the filter of the output's lines |
| Encfs.CheckArgs | tmp_encfs_reverse.py:52-81 | `-u` with any other argument is rejected; without `-u` both positional arguments are required; otherwise the chosen mode carries the given values |
| Encfs.CleanLine | tmp_encfs_reverse.py:90-91 | the cleaned line is the stripped line with its final run of separators removed, and no longer ends in a separator |
| Strings.StripIsInnerSegment | tmp_encfs_reverse.py:90 | `strip()` returns exactly the stretch that begins and ends with non-whitespace and has only whitespace around it |
| Encfs.Kept | tmp_encfs_reverse.py:93-96 | a line is kept iff it occurs in the file and is neither a comment nor empty; no kept line is one |
| Encfs.KeptConcat | tmp_encfs_reverse.py:89-96 | kept lines stay in file order: those of two stretches of the file are the first's followed by the second's |
| Encfs.ReadPathsFile | tmp_encfs_reverse.py:87-104 | the loop with `continue` and `raise` computes the specification of the file read |
| Encfs.ReadPathsCharacterised | tmp_encfs_reverse.py:87-104 | the read succeeds iff every kept line is a directory with a fresh name; then each kept line is entered under its name |
| Encfs.PathsFileAccepted | tmp_encfs_reverse.py:87-104 | accepted iff all kept lines are directories with pairwise different basenames |
| Encfs.AcceptedPathsMap | tmp_encfs_reverse.py:99-104 | an accepted file gives one entry per kept line, under that line's basename; every key is the basename of its value, a kept directory |
| Encfs.DuplicateNameRejected | tmp_encfs_reverse.py:99-104 | two kept lines with the same basename make the read fail |
| Encfs.EncfsArgs | tmp_encfs_reverse.py:133-143 | `encfs --reverse`, then `--stdinpass` iff a password file is given, then the plain and encfs directories; `--stdinpass` occurs iff a password file is given or a directory is that very string |
| Encfs.DirectoriesAreNotOptions | tmp_encfs_reverse.py:114-130 | the `plain` and `encfs` directories are never the string `--stdinpass`, so the option occurs iff a password file is given |
| Encfs.UmountPaths | tmp_encfs_reverse.py:62-67 | the path loses only trailing separators; the base path is its directory, with `plain` beneath it |
| Encfs.MountedPathUnmounts | tmp_encfs_reverse.py:62-67 | the printed mount path, with or without trailing slashes, leads back to the temporary directory and its `plain` directory |
| RealTimeActions.SplitExtRoot | real-time_settings.py:97 | the root is a prefix of the name; it is cut exactly when a dot in the last component has a non-dot before it in that component, and then at the last dot |
| RealTimeActions.SplitExtExamples | real-time_settings.py:97 | `cron.service` → `cron`, `getty@.service` → `getty@`; `.service`, `tlp` and `..x` kept |
| RealTimeActions.UnitLines | real-time_settings.py:96 | the listing's lines without the first and the last three, in order |
| RealTimeActions.NonEmptyImages | real-time_settings.py:96-99 | no cached name is empty |
| RealTimeActions.NonEmptyImagesMembers | real-time_settings.py:96-99 | a value is kept iff it is non-empty and yielded by some line |
| RealTimeActions.NamesOfMembers | real-time_settings.py:96-99 | a name is cached iff it is non-empty and some unit line yields it |
| RealTimeActions.ShortListingHasNoServices | real-time_settings.py:96 | a listing of four lines or fewer yields no service |
| RealTimeActions.ReadLine | real-time_settings.py:119-120 | `readline` returns a prefix of the file, up to and including the first newline |
| RealTimeActions.SysfsLineMustBeBareOne | real-time_settings.py:117-122 | a sysfs file holding `1` and a newline does not count as real-time, one holding just `1` does |
| RealTimeActions.CheckEffects | real-time_settings.py:116-134 | the error is logged exactly when no test of the real-time disjunction passes |
| RealTimeActions.Exec | real-time_settings.py:81-88 | the command is executed iff not simulating, and only printed otherwise |
| RealTimeActions.ServiceEffect | real-time_settings.py:103-107 | a command is issued iff the unit is in the cache, and it is `systemctl <verb> <unit>` |
| RealTimeActions.SimulatedActionsExecuteNothing | real-time_settings.py:81-85 | simulated actions execute no command |
| RealTimeActions.UnknownUnitUntouched | real-time_settings.py:103-105 | a unit missing from the cache is never passed to `systemctl` |
| RealTimeActions.CronOrder | real-time_settings.py:137-143 | with both units known, `cron` then `crond` are stopped when switching on, started when switching off |
| RealTimeActions.ActionBase.constructor | real-time_settings.py:92 | the service cache starts absent and nothing is recorded |
| RealTimeActions.ActionBase.FillCache | real-time_settings.py:92-101 | the listing is requested once, and the cache is filled with the parsed service names |
| RealTimeActions.ActionBase.ExecuteSafely | real-time_settings.py:67-88 | appends the executed or simulated command; the cache is untouched |
| RealTimeActions.ActionBase.Service | real-time_settings.py:90-107 | the listing is requested on the first call only; a known unit gets its command, an unknown one nothing |
| RealTimeActions.ActionBase.CheckForRealTimeKernel | real-time_settings.py:116-134 | the early returns record the same effects as the real-time disjunction |
| RealTimeActions.ActionBase.Cron | real-time_settings.py:137-143 | `cron` then `crond` through `service`, with the cache filled once |
| RealTimeActions.ActionBase.Tlp | real-time_settings.py:146-150 | `tlp` through `service` |
| RealTimeSettings.FreqEffects | real-time_settings.py:153-171 | one copy per CPU 0 … n−1, from `cpuinfo_max_freq` (on) or `cpuinfo_min_freq` (off) to `scaling_min_freq` |
| RealTimeSettings.ListedNames | real-time_settings.py:178-180 | one printed name per action, in order |
| RealTimeSettings.SwitchInRegistrationOrder | real-time_settings.py:188-195 | switching is the check, `Cron`, `Tlp` and `FrequencyScaling`, in that order |
| RealTimeSettings.ListOnlyPrintsNames | real-time_settings.py:178-181 | `--list` prints the four names in registration order and does nothing else |
| RealTimeSettings.NoSwitchOnlyHints | real-time_settings.py:196-197 | without `on` or `off` only the hint is printed |
| RealTimeSettings.ActionKernelError | real-time_settings.py:115-134 | one action logs the kernel error iff it is the check, switching on a kernel that is not real-time |
| RealTimeSettings.KernelErrorFromCheckOnly | real-time_settings.py:115-135 | a run of actions logs the kernel error iff it contains the check, switches on, and the kernel is not real-time |
| RealTimeSettings.OnlyCheckReportsKernel | real-time_settings.py:137-171 | `Cron`, `Tlp` and frequency scaling never log the kernel error |
| RealTimeSettings.KernelErrorOnlyWhenOn | real-time_settings.py:184-195 | the kernel error appears iff switching on and the kernel is not real-time |
| RealTimeSettings.SimulateExecutesNothing | real-time_settings.py:81-85 | with `--simulate` no command is executed in any mode |
| RealTimeSettings.UnknownServiceUntouched | real-time_settings.py:103-105 | a unit missing from the listing is never started or stopped |
| RealTimeSettings.FrequencyScalingLast | real-time_settings.py:153-172 | a switch ends with one frequency copy per CPU, in CPU order, from the right source file |
| RealTimeSettings.ScaleFrequencies | real-time_settings.py:158-171 | the loop over the CPUs records exactly the frequency copies |
| RealTimeSettings.SwitchAction | real-time_settings.py:189-195 | one action switched records that action's effects, with the check doing nothing when off |
| RealTimeSettings.ListActions | real-time_settings.py:178-181 | the loop over the actions prints their names |
| RealTimeSettings.SwitchAll | real-time_settings.py:188-195 | the loop over the actions records all their effects in registration order |
| RealTimeSettings.Run | real-time_settings.py:178-197 | list, root warning, switch or hint: the effects of the whole dispatch |
| RealTimeHelper.SameAsNewerAction | real-time_helper.py:112-151 | each action of the older script does what the same action of the newer script does |
| RealTimeHelper.NewerScriptAddsFrequencyScaling | real-time_helper.py:157-168 | the older script's run is the newer one's switch minus the final frequency copies |
| RealTimeHelper.SimulateExecutesNothing | real-time_helper.py:78-82 | with `--simulate` no command is executed |
| RealTimeHelper.UnknownServiceUntouched | real-time_helper.py:100-102 | a unit missing from the listing is never started or stopped |
| RealTimeHelper.KernelErrorOnlyWhenOn | real-time_helper.py:112-134 | the kernel error appears iff activating on a kernel that is not real-time |
| RealTimeHelper.SwitchAction | real-time_helper.py:161-168 | `activate` or `deactivate` of one action records its effects |
| RealTimeHelper.SwitchInRegistrationOrder | real-time_helper.py:157-168 | switching is the check, `Cron` and `Tlp`, in that order |
| RealTimeHelper.SwitchAll | real-time_helper.py:161-168 | the loop over the actions records all their effects in registration order |
| RealTimeHelper.Run | real-time_helper.py:157-168 | the root warning, then every action activated (on) or deactivated (off) in order |
| Accounts.Getgrnam | ensure_home_for_group.py:20-24 | the lookup fails iff no group has the name; otherwise it yields the first group with it |
| Accounts.Getpwnam | ensure_home_for_group.py:36 | the lookup fails iff no entry has the name; otherwise it yields an entry with it |
| Accounts.PrimaryUsersMembers | ensure_home_for_group.py:27-28 | a name is a primary-group user iff some entry with that group id has it |
| Accounts.GroupUsers | ensure_home_for_group.py:26-29 | the members come first, in order, followed by the primary-group users; a user in both appears twice |
| Accounts.GroupUsersMembers | ensure_home_for_group.py:26-29 | a user is listed iff it is a member or has the group as primary group |
| Accounts.SetField | ensure_home_for_group.py:39 | `usermod` / `chsh` changes the field of that user's entries and no other entry |
| Accounts.GetpwnamAfterSet | ensure_home_for_group.py:36-39 | after a change, a lookup of that user sees the new value and every other lookup is unchanged |
| Accounts.PrimaryUsersAfterSet | ensure_home_for_group.py:27-28 | changing a home or shell changes no primary-group user list |
| GroupHome.ExpandHomeCharacterised | ensure_home_for_group.py:32 | the home is the template cut at every `%u`, joined with the user name; a template without `%u` is used as is |
| GroupHome.HomeLoopKeepsHome | ensure_home_for_group.py:36-39 | a user whose home is already right keeps it through the loop |
| GroupHome.HomeLoopSetsEveryHome | ensure_home_for_group.py:31-39 | when the loop finishes, every listed user has the expanded home |
| GroupHome.HomeLoopOnSetHomes | ensure_home_for_group.py:37-39 | users who all have their homes get no `usermod`, and nothing changes |
| GroupHome.HomeLoopKeepsPrimaryUsers | ensure_home_for_group.py:31-39 | the loop leaves every primary-group user list as it was |
| GroupHome.HomeIdempotent | ensure_home_for_group.py:12-39 | a second run after a finished run finishes, issues no `usermod` and changes nothing |
| GroupHome.MissingDirectoryOnlyWarns | ensure_home_for_group.py:33-35 | how the loop ends and what it changes do not depend on which directories exist |
| GroupHome.HomeEventsExplained | ensure_home_for_group.py:31-39 | every `usermod` sets a listed user's expanded home, and every warning names such a home that is not a directory |
| GroupHome.UpdateHome | ensure_home_for_group.py:32-39 | one pass: the warning if the home is missing, the failed lookup, or a `usermod` iff the home differs |
| GroupHome.UpdateHomes | ensure_home_for_group.py:31-39 | the loop computes the loop's specification |
| GroupHome.EnsureHome | ensure_home_for_group.py:12-39 | too few arguments → usage and exit 1; unknown group → error and exit 1; otherwise the loop over the group's users |
| GroupShell.ShellLoopKeepsShell | ensure_shell_for_group.py:37-39 | a user who already has the shell keeps it through the loop |
| GroupShell.ShellLoopSetsEveryShell | ensure_shell_for_group.py:35-39 | when the loop finishes, every listed user has the shell |
| GroupShell.ShellLoopOnSetShells | ensure_shell_for_group.py:35-39 | users who all have the shell get no `chsh`, and nothing changes |
| GroupShell.ShellLoopKeepsPrimaryUsers | ensure_shell_for_group.py:35-39 | the loop leaves every primary-group user list as it was |
| GroupShell.ShellIdempotent | ensure_shell_for_group.py:13-39 | a second run after a finished run prints nothing and changes nothing |
| GroupShell.InvalidShellChangesNothing | ensure_shell_for_group.py:31-33 | a shell that is not an executable file ends with exit 1, before any `chsh` and with the database unchanged |
| GroupShell.ShellEventsExplained | ensure_shell_for_group.py:35-39 | every event is a `chsh` of a listed user to the shell, at most one per list entry |
| GroupShell.UpdateShells | ensure_shell_for_group.py:35-39 | the loop computes the loop's specification |
| GroupShell.EnsureShell | ensure_shell_for_group.py:13-39 | too few arguments → usage and exit 1; unknown group → error and exit 1; invalid shell → error and exit 1; otherwise the loop |

## Left out

- External effects are not modelled, only their results as inputs and the
  commands as effect records. This covers `statvfs`, `subprocess`
  (`diff`, `dd`, `df`, `blkid`, `mount`, `rsync`, `sfdisk`, `grub-install`,
  `linkchecker`, `encfs`, `systemctl`, `usermod`, `chsh`), `/sys` reads,
  `uname`, `getuid`, `pwd` and `grp`.
- Argument parsing (argparse) and logging setup are not modelled in any
  script. Parsed arguments are inputs.
- cli_application_template.py is not part of this model. It only parses
  flags and echoes a greeting.
- `bytes_to_human_readable` (softquota.py:60-63): the converted size uses
  floating-point division and `round`, so the text of the critical message
  is not modelled. Its `TypeError` for a quota without prefix is modelled
  by SoftQuota.MainEnding.
- SoftQuota.ExtractInt: Python's `int()` also accepts surrounding
  whitespace, a sign and underscores. The model accepts plain decimal
  digit strings only.
- CloneOs.TrailingDigitsStart: in Python, regex `$` also matches before a
  trailing newline. Partition paths are taken to contain no newline.
- The `run` wrapper's logging-dependent output redirection
  (clone_OS_bootable.py:79-101) is not modelled.
- `mkdtemp` naming is not modelled; the temporary directory is an input.
- `get_device_by_mount_point` and `get_uuid_by_partition` are not
  modelled: they only read command output. RewriteFstab takes what
  their assertions guarantee as its precondition.
- The `sfdisk` bootable-flag step and the GRUB update and install steps of
  `_main` are not modelled. They are commands whose outcome the model does
  not track; their decisions are covered by DirsDiffer and GrubIsInstalled.
- The bind mounts, the `os.walk` unmount loop and the directory removals of
  tmp_encfs_reverse.py are not modelled (file-system I/O).
- The encfs process, the `ENCFS6_CONFIG` variable and piping the password
  file into encfs are not modelled.
- LinkChecker.SplitLines: `universal_newlines` translation of the process
  output is not modelled. The output text is taken as already decoded.
- RealTimeActions.ActionBase.ExecuteSafely: the return value and the exact
  printed text are not modelled. The model records which command was
  executed or only printed.
- RealTimeActions.ActionBase.Service: the `which("systemctl")` path lookup
  is not modelled. The model also drops the `logging.debug`/`logging.info`
  messages.
- RealTimeActions.ActionBase: the class-level service cache is a field of
  the object all actions share in a run. The listing is requested at most
  once per run, as in the scripts.
- `multiprocessing.cpu_count()` is an input natural number.
- Accounts.SetField: `usermod` and `chsh` are assumed to succeed (the
  scripts ignore their exit codes). The local copy of the password
  database is updated the way the command updates the real one.
- Printed messages are events (constructors of `Accounts.Event` and
  `RealTimeActions.Effect`), not their exact texts.
