/**
 * tmp_encfs_reverse.py: the argument checks, the reading of the paths file
 * into the map `to_mount` (directory name to directory path), the argument
 * vector of `encfs --reverse`, and the paths the unmount mode works on.
 *
 * Whether a path is an existing directory is given by the set `dirs`.
 */
module Encfs {

  import opened Common
  import opened Strings

  // ---------------------------------------------------------------------------
  // argument checks
  // ---------------------------------------------------------------------------

  /** The parsed options; an option that was not given is `None`. */
  datatype Args = Args(encfsConf: Option<string>, passwordFile: Option<string>,
                       pathsFile: Option<string>, umount: Option<string>)

  /** Python truthiness of an optional string: given and not empty. */
  predicate Given(o: Option<string>) {
    o.Some? && o.value != ""
  }

  /** What the script goes on to do. */
  datatype Mode =
    | UmountMode(path: string)
    | MountMode(conf: string, pathsFile: string, passwordFile: Option<string>)

  /** The two `parser.error` calls. */
  datatype UsageError = UmountNotAlone | ConfAndPathsRequired

  /** `-u` must come alone; otherwise both positional arguments are needed.
      The password file counts only when it is a non-empty string. */
  function CheckArgs(a: Args): (r: Result<Mode, UsageError>)
    ensures r == Err(UmountNotAlone) <==>
      Given(a.umount) && (Given(a.encfsConf) || Given(a.passwordFile) || Given(a.pathsFile))
    ensures r == Err(ConfAndPathsRequired) <==>
      !Given(a.umount) && !(Given(a.encfsConf) && Given(a.pathsFile))
    ensures r.Ok? && r.value.UmountMode? ==> Given(a.umount) && r.value.path == a.umount.value
    ensures r.Ok? && r.value.MountMode? ==>
      && !Given(a.umount)
      && Given(a.encfsConf) && r.value.conf == a.encfsConf.value
      && Given(a.pathsFile) && r.value.pathsFile == a.pathsFile.value
      && (r.value.passwordFile.Some? <==> Given(a.passwordFile))
      && (r.value.passwordFile.Some? ==> r.value.passwordFile == a.passwordFile)
  {
    if Given(a.umount) then
      if Given(a.encfsConf) || Given(a.passwordFile) || Given(a.pathsFile) then Err(UmountNotAlone)
      else Ok(UmountMode(a.umount.value))
    else if !(Given(a.encfsConf) && Given(a.pathsFile)) then Err(ConfAndPathsRequired)
    else Ok(MountMode(a.encfsConf.value, a.pathsFile.value,
                      if Given(a.passwordFile) then a.passwordFile else None))
  }

  // ---------------------------------------------------------------------------
  // the paths file
  // ---------------------------------------------------------------------------

  /** A line after `strip()` and `rstrip(sep)`: the stripped line without
      the run of separators it ends in. */
  function CleanLine(line: string): (r: string)
    ensures |r| == 0 || r[|r| - 1] != '/'
    ensures |r| <= |Strip(line)| && r == Strip(line)[..|r|]
    ensures forall i :: |r| <= i < |Strip(line)| ==> Strip(line)[i] == '/'
  {
    RStripChar(Strip(line), '/')
  }

  /** Every line of the file, cleaned. */
  function Cleaned(lines: seq<string>): (r: seq<string>)
    ensures |r| == |lines|
    ensures forall i :: 0 <= i < |lines| ==> r[i] == CleanLine(lines[i])
  {
    seq(|lines|, i requires 0 <= i < |lines| => CleanLine(lines[i]))
  }

  /** A cleaned line that is a comment or empty. */
  predicate Skipped(l: string) {
    StartsWith(l, "#") || l == ""
  }

  /** The cleaned lines that are neither comments nor empty, in file order. */
  function Kept(cleaned: seq<string>): (kept: seq<string>)
    ensures |kept| <= |cleaned|
    ensures forall i :: 0 <= i < |kept| ==> !Skipped(kept[i])
    ensures forall l :: l in kept <==> l in cleaned && !Skipped(l)
  {
    if cleaned == [] then []
    else (if Skipped(cleaned[0]) then [] else [cleaned[0]]) + Kept(cleaned[1..])
  }

  /** Keeping lines respects file order: the kept lines of two stretches of
      the file are those of the first followed by those of the second. */
  lemma {:induction false} KeptConcat(a: seq<string>, b: seq<string>)
    ensures Kept(a + b) == Kept(a) + Kept(b)
    decreases |a|
  {
    if a != [] {
      assert (a + b)[1..] == a[1..] + b;
      KeptConcat(a[1..], b);
    } else {
      assert a + b == b;
    }
  }

  /** Why the paths file is refused: a line that is not an existing directory
      (IOError), or a second directory with a name already seen (RuntimeError). */
  datatype PathsError = NoSuchDirectory(line: string) | DuplicateName(name: string)

  /** The loop over the cleaned lines of the paths file, continued from `toMount`. */
  function ReadPaths(cleaned: seq<string>, dirs: set<string>, toMount: map<string, string>)
    : Result<map<string, string>, PathsError>
  {
    if cleaned == [] then Ok(toMount)
    else
      var l := cleaned[0];
      if Skipped(l) then ReadPaths(cleaned[1..], dirs, toMount)
      else if l !in dirs then Err(NoSuchDirectory(l))
      else if Basename(l) in toMount then Err(DuplicateName(Basename(l)))
      else ReadPaths(cleaned[1..], dirs, toMount[Basename(l) := l])
  }

  /** The loop itself: `to_mount` starts empty and gains one entry per kept line. */
  method ReadPathsFile(lines: seq<string>, dirs: set<string>)
    returns (r: Result<map<string, string>, PathsError>)
    ensures r == ReadPaths(Cleaned(lines), dirs, map[])
  {
    ghost var cleaned := Cleaned(lines);
    var toMount: map<string, string> := map[];
    var i := 0;
    while i < |lines|
      invariant 0 <= i <= |lines|
      invariant ReadPaths(cleaned[i..], dirs, toMount) == ReadPaths(cleaned, dirs, map[])
    {
      assert cleaned[i..][1..] == cleaned[i + 1..];
      var line := Strip(lines[i]);
      line := RStripChar(line, '/');
      if StartsWith(line, "#") {
        i := i + 1;
        continue;
      }
      if line == "" {
        i := i + 1;
        continue;
      }
      if line !in dirs {
        return Err(NoSuchDirectory(line));
      }
      var name := Basename(line);
      if name in toMount {
        return Err(DuplicateName(name));
      }
      toMount := toMount[name := line];
      i := i + 1;
    }
    assert cleaned[i..] == [];
    return Ok(toMount);
  }

  /** The kept lines may all be mounted: each is an existing directory, no
      two share a name, and none has a name in `used`. */
  predicate Admissible(kept: seq<string>, dirs: set<string>, used: set<string>, name: string -> string) {
    && (forall i :: 0 <= i < |kept| ==> kept[i] in dirs && name(kept[i]) !in used)
    && (forall i, j :: 0 <= i < j < |kept| ==> name(kept[i]) != name(kept[j]))
  }

  /** Each kept line under its own name. */
  function Entries(kept: seq<string>, name: string -> string): map<string, string> {
    if kept == [] then map[] else map[name(kept[0]) := kept[0]] + Entries(kept[1..], name)
  }

  lemma AdmissibleCons(l: string, rest: seq<string>, dirs: set<string>, used: set<string>, name: string -> string)
    ensures Admissible([l] + rest, dirs, used, name) <==>
      l in dirs && name(l) !in used && Admissible(rest, dirs, used + {name(l)}, name)
  {
    var kept := [l] + rest;
    assert kept[0] == l;
    assert forall i :: 0 <= i < |rest| ==> kept[i + 1] == rest[i];
    if l in dirs && name(l) !in used && Admissible(rest, dirs, used + {name(l)}, name) {
      forall i, j | 0 <= i < j < |kept| ensures name(kept[i]) != name(kept[j]) {
        assert kept[j] == rest[j - 1];
        if i > 0 {
          assert kept[i] == rest[i - 1];
        }
      }
    }
    if Admissible(kept, dirs, used, name) {
      forall i | 0 <= i < |rest| ensures name(rest[i]) != name(l) {
        assert name(kept[0]) != name(kept[i + 1]);
      }
      forall i, j | 0 <= i < j < |rest| ensures name(rest[i]) != name(rest[j]) {
        assert name(kept[i + 1]) != name(kept[j + 1]);
      }
    }
  }

  /** Entering one name and then merging is merging the entry first; stated
      apart so that the induction below does not reason about maps. */
  lemma MergeStep(m: map<string, string>, n: string, v: string, e: map<string, string>)
    ensures m[n := v] + e == m + (map[n := v] + e)
  {
  }

  /** The loop succeeds exactly when the kept lines are admissible, and then
      it has added every kept line under its name. */
  lemma {:induction false} ReadPathsCharacterised(cleaned: seq<string>, dirs: set<string>, toMount: map<string, string>)
    ensures ReadPaths(cleaned, dirs, toMount).Ok? <==> Admissible(Kept(cleaned), dirs, toMount.Keys, Basename)
    ensures ReadPaths(cleaned, dirs, toMount).Ok? ==>
      ReadPaths(cleaned, dirs, toMount).value == toMount + Entries(Kept(cleaned), Basename)
    decreases |cleaned|
  {
    if cleaned == [] {
      assert toMount + Entries([], Basename) == toMount;
    } else {
      var l := cleaned[0];
      var rest := cleaned[1..];
      if Skipped(l) {
        assert Kept(cleaned) == Kept(rest);
        assert ReadPaths(cleaned, dirs, toMount) == ReadPaths(rest, dirs, toMount);
        ReadPathsCharacterised(rest, dirs, toMount);
      } else {
        var n := Basename(l);
        assert Kept(cleaned) == [l] + Kept(rest);
        AdmissibleCons(l, Kept(rest), dirs, toMount.Keys, Basename);
        if l in dirs && n !in toMount {
          var next := toMount[n := l];
          assert ReadPaths(cleaned, dirs, toMount) == ReadPaths(rest, dirs, next);
          ReadPathsCharacterised(rest, dirs, next);
          assert next.Keys == toMount.Keys + {n};
          assert Entries(Kept(cleaned), Basename) == map[n := l] + Entries(Kept(rest), Basename);
          MergeStep(toMount, n, l, Entries(Kept(rest), Basename));
        }
      }
    }
  }

  /** A name that no kept line has is not entered. */
  lemma {:induction false} NameNotEntered(kept: seq<string>, name: string -> string, n: string)
    requires forall i :: 0 <= i < |kept| ==> name(kept[i]) != n
    ensures n !in Entries(kept, name)
    decreases |kept|
  {
    if kept != [] {
      assert forall i :: 0 <= i < |kept[1..]| ==> kept[1..][i] == kept[i + 1];
      NameNotEntered(kept[1..], name, n);
    }
  }

  lemma MergeFresh(m: map<string, string>, n: string, v: string)
    requires n !in m
    ensures |map[n := v] + m| == |m| + 1
  {
    assert map[n := v] + m == m[n := v];
  }

  /** Every entry is some kept line, under that line's name. */
  lemma {:induction false} EntriesFromKept(kept: seq<string>, name: string -> string)
    ensures forall n :: n in Entries(kept, name) ==>
      exists i :: 0 <= i < |kept| && kept[i] == Entries(kept, name)[n] && name(kept[i]) == n
    decreases |kept|
  {
    if kept != [] {
      var rest := kept[1..];
      EntriesFromKept(rest, name);
      var e := Entries(kept, name);
      var er := Entries(rest, name);
      forall n | n in e
        ensures exists i :: 0 <= i < |kept| && kept[i] == e[n] && name(kept[i]) == n
      {
        if n in er {
          var i :| 0 <= i < |rest| && rest[i] == er[n] && name(rest[i]) == n;
          assert kept[i + 1] == e[n];
        } else {
          assert kept[0] == e[n];
        }
      }
    }
  }

  /** With distinct names there is one entry per kept line, and each kept
      line is found under its name. */
  lemma {:induction false} EntriesOfDistinctNames(kept: seq<string>, name: string -> string)
    requires forall i, j :: 0 <= i < j < |kept| ==> name(kept[i]) != name(kept[j])
    ensures |Entries(kept, name)| == |kept|
    ensures forall i :: 0 <= i < |kept| ==>
      name(kept[i]) in Entries(kept, name) && Entries(kept, name)[name(kept[i])] == kept[i]
    decreases |kept|
  {
    if kept != [] {
      var rest := kept[1..];
      assert forall i :: 0 <= i < |rest| ==> rest[i] == kept[i + 1];
      EntriesOfDistinctNames(rest, name);
      var n := name(kept[0]);
      NameNotEntered(rest, name, n);
      MergeFresh(Entries(rest, name), n, kept[0]);
      var e := Entries(kept, name);
      forall i | 0 <= i < |kept| ensures name(kept[i]) in e && e[name(kept[i])] == kept[i] {
        if i > 0 {
          assert kept[i] == rest[i - 1];
        }
      }
    }
  }

  /** Admissible lines give one entry each, under its own name, and every
      entry is one of them. */
  lemma EntriesOfAdmissible(kept: seq<string>, dirs: set<string>, name: string -> string)
    requires Admissible(kept, dirs, {}, name)
    ensures var m := Entries(kept, name);
      && |m| == |kept|
      && (forall i :: 0 <= i < |kept| ==> name(kept[i]) in m && m[name(kept[i])] == kept[i])
      && (forall n :: n in m ==> n == name(m[n]) && m[n] in dirs && m[n] in kept)
  {
    EntriesFromKept(kept, name);
    EntriesOfDistinctNames(kept, name);
    var m := Entries(kept, name);
    forall n | n in m ensures n == name(m[n]) && m[n] in dirs && m[n] in kept {
      var i :| 0 <= i < |kept| && kept[i] == m[n] && name(kept[i]) == n;
    }
  }

  /** The paths file is accepted exactly when every kept line is an existing
      directory and no two kept lines have the same name. */
  lemma PathsFileAccepted(lines: seq<string>, dirs: set<string>)
    ensures var kept := Kept(Cleaned(lines));
      ReadPaths(Cleaned(lines), dirs, map[]).Ok? <==>
        && (forall i :: 0 <= i < |kept| ==> kept[i] in dirs)
        && (forall i, j :: 0 <= i < j < |kept| ==> Basename(kept[i]) != Basename(kept[j]))
  {
    ReadPathsCharacterised(Cleaned(lines), dirs, map[]);
  }

  /** Read from an empty map, an accepted file yields exactly its kept lines' entries. */
  lemma AcceptedIsEntries(cleaned: seq<string>, dirs: set<string>)
    requires ReadPaths(cleaned, dirs, map[]).Ok?
    ensures Admissible(Kept(cleaned), dirs, {}, Basename)
    ensures ReadPaths(cleaned, dirs, map[]).value == Entries(Kept(cleaned), Basename)
  {
    ReadPathsCharacterised(cleaned, dirs, map[]);
    assert map[] + Entries(Kept(cleaned), Basename) == Entries(Kept(cleaned), Basename);
  }

  /** An accepted paths file gives `to_mount` one entry per kept line, each
      under that line's name, so no entry is ever silently replaced. */
  lemma AcceptedPathsMap(lines: seq<string>, dirs: set<string>)
    requires ReadPaths(Cleaned(lines), dirs, map[]).Ok?
    ensures var kept := Kept(Cleaned(lines));
      var m := ReadPaths(Cleaned(lines), dirs, map[]).value;
      && |m| == |kept|
      && (forall i :: 0 <= i < |kept| ==> Basename(kept[i]) in m && m[Basename(kept[i])] == kept[i])
      && (forall name :: name in m ==> name == Basename(m[name]) && m[name] in dirs && m[name] in kept)
  {
    AcceptedIsEntries(Cleaned(lines), dirs);
    EntriesOfAdmissible(Kept(Cleaned(lines)), dirs, Basename);
  }

  /** Two kept lines with the same name make the file fail, whatever else it holds. */
  lemma DuplicateNameRejected(lines: seq<string>, dirs: set<string>, i: nat, j: nat)
    requires i < j < |Kept(Cleaned(lines))|
    requires Basename(Kept(Cleaned(lines))[i]) == Basename(Kept(Cleaned(lines))[j])
    ensures ReadPaths(Cleaned(lines), dirs, map[]).Err?
  {
    PathsFileAccepted(lines, dirs);
  }

  // ---------------------------------------------------------------------------
  // the encfs invocation
  // ---------------------------------------------------------------------------

  /** `encfs_args`: built with `append` and `extend` from the two directories
      `plainBasepath` and `encfsBasepath`; `--stdinpass` is passed exactly
      when a password file is read. */
  method EncfsArgs(plainBasepath: string, encfsBasepath: string, passwordFile: Option<string>)
    returns (args: seq<string>)
    ensures |args| == if passwordFile.Some? then 5 else 4
    ensures args[..2] == ["encfs", "--reverse"]
    ensures passwordFile.Some? ==> args[2] == "--stdinpass"
    ensures args[|args| - 2..] == [plainBasepath, encfsBasepath]
    ensures "--stdinpass" in args
      <==> passwordFile.Some? || plainBasepath == "--stdinpass" || encfsBasepath == "--stdinpass"
  {
    args := ["encfs", "--reverse"];
    if passwordFile.Some? {
      args := args + ["--stdinpass"];
    }
    args := args + [plainBasepath, encfsBasepath];
    assert |"encfs"| != |"--stdinpass"| && |"--reverse"| != |"--stdinpass"|;
  }

  /** The directories `plain` and `encfs` of the temporary directory are never
      taken for the `--stdinpass` option, so that option is passed exactly
      when a password file is read. */
  lemma DirectoriesAreNotOptions(basepath: string)
    ensures PathJoin(basepath, "plain") != "--stdinpass"
    ensures PathJoin(basepath, "encfs") != "--stdinpass"
  {
    assert "--stdinpass"[6..] == "npass";
  }

  // ---------------------------------------------------------------------------
  // unmounting
  // ---------------------------------------------------------------------------

  /** The three directories the unmount mode works on. */
  datatype UmountTargets = UmountTargets(encfsPath: string, basepath: string, plainBasedir: string)

  /** The `-u` path without trailing separators, its directory, and `plain`
      beneath that directory. */
  function UmountPaths(arg: string): (t: UmountTargets)
    ensures StartsWith(arg, t.encfsPath)
    ensures forall i :: |t.encfsPath| <= i < |arg| ==> arg[i] == '/'
    ensures |t.encfsPath| == 0 || t.encfsPath[|t.encfsPath| - 1] != '/'
    ensures t.basepath == Dirname(t.encfsPath)
    ensures t.plainBasedir == PathJoin(t.basepath, "plain")
  {
    var encfsPath := RStripChar(arg, '/');
    var basepath := Dirname(encfsPath);
    UmountTargets(encfsPath, basepath, PathJoin(basepath, "plain"))
  }

  /** The directory of `a/b`, for a name `b`, is `a`. */
  lemma DirnameOfChild(a: string, b: string)
    requires |a| > 0 && a[|a| - 1] != '/'
    requires forall i :: 0 <= i < |b| ==> b[i] != '/'
    ensures Dirname(a + "/" + b) == a
  {
    SplitLastComponent(a, b);
    var head := a + "/";
    assert head[|a| - 1] != '/';
    assert !AllSlashes(head);
    RStripCharAppended(a, "/", '/');
  }

  /** The path printed by the mount mode, given back to `-u` with or without
      trailing slashes, leads to the same temporary directory and the same
      `plain` directory the mount mode created. */
  lemma MountedPathUnmounts(basepath: string, slashes: string)
    requires |basepath| > 0 && basepath[|basepath| - 1] != '/'
    requires AllSlashes(slashes)
    ensures UmountPaths(PathJoin(basepath, "encfs") + slashes)
      == UmountTargets(PathJoin(basepath, "encfs"), basepath, PathJoin(basepath, "plain"))
  {
    var printed := PathJoin(basepath, "encfs");
    assert !StartsWith("encfs", "/") by {
      assert "encfs"[..1] == "e";
    }
    assert !EndsWith(basepath, "/") by {
      assert basepath[|basepath| - 1..] == [basepath[|basepath| - 1]];
    }
    assert printed == basepath + "/" + "encfs";
    assert printed[|printed| - 1] == 's';
    RStripCharAppended(printed, slashes, '/');
    DirnameOfChild(basepath, "encfs");
  }
}
