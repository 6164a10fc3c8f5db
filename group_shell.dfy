/**
 * ensure_shell_for_group.py: give every user of a group the login shell
 * `<shell>`. `isfile(shell) and access(shell, X_OK)` is membership in the
 * set `executables`.
 */
module GroupShell {

  import opened Common
  import opened Accounts

  // ---------------------------------------------------------------------------
  // the loop, as a specification function
  // ---------------------------------------------------------------------------

  /** The `for user in users` loop from the database `db` on. */
  function ShellLoop(users: seq<string>, shell: string, db: seq<PasswdEntry>): Outcome
    decreases |users|
  {
    if users == [] then Outcome(Finished, [], db)
    else
      var user := users[0];
      match Getpwnam(db, user)
      case None => Outcome(NoSuchUser(user), [], db)
      case Some(pw) =>
        if pw.shell != shell then After([SetShell(shell, user)], ShellLoop(users[1..], shell, SetField(db, user, Shell, shell)))
        else ShellLoop(users[1..], shell, db)
  }

  /** The whole script on the arguments `argv`: the shell is checked after
      the group lookup and before any `chsh`. */
  function EnsureShellRun(argv: seq<string>, groups: seq<GroupEntry>, passwd: seq<PasswdEntry>,
                          executables: set<string>): Outcome {
    if |argv| < 3 then Outcome(Exit(1), [Usage], passwd)
    else
      match Getgrnam(groups, argv[1])
      case None => Outcome(Exit(1), [GroupNotFound(argv[1])], passwd)
      case Some(group) =>
        if argv[2] !in executables then Outcome(Exit(1), [InvalidShell(argv[2])], passwd)
        else ShellLoop(GroupUsers(group, passwd), argv[2], passwd)
  }

  // ---------------------------------------------------------------------------
  // properties
  // ---------------------------------------------------------------------------

  /** What the loop prints for its first user, and the database it goes on with. */
  lemma ShellLoopFirst(users: seq<string>, shell: string, db: seq<PasswdEntry>)
    requires users != [] && Getpwnam(db, users[0]).Some?
    ensures var changed := Getpwnam(db, users[0]).value.shell != shell;
      var next := if changed then SetField(db, users[0], Shell, shell) else db;
      ShellLoop(users, shell, db) == After(if changed then [SetShell(shell, users[0])] else [], ShellLoop(users[1..], shell, next))
  {
  }

  /** Every user of `users` has `shell` in `db`. */
  predicate AllShellsSet(users: seq<string>, shell: string, db: seq<PasswdEntry>) {
    forall k :: 0 <= k < |users| ==> HasValue(db, users[k], Shell, shell)
  }

  lemma AllShellsSetCons(users: seq<string>, shell: string, db: seq<PasswdEntry>)
    requires users != []
    requires HasValue(db, users[0], Shell, shell) && AllShellsSet(users[1..], shell, db)
    ensures AllShellsSet(users, shell, db)
  {
    forall k | 1 <= k < |users| ensures HasValue(db, users[k], Shell, shell) {
      assert users[k] == users[1..][k - 1];
    }
  }

  /** A user who already has the shell keeps it through the loop. */
  lemma {:induction false} ShellLoopKeepsShell(users: seq<string>, shell: string, db: seq<PasswdEntry>, name: string)
    requires HasValue(db, name, Shell, shell)
    ensures HasValue(ShellLoop(users, shell, db).db, name, Shell, shell)
    decreases |users|
  {
    if users != [] {
      var user := users[0];
      if Getpwnam(db, user).Some? {
        if Getpwnam(db, user).value.shell != shell {
          SetKeepsValue(db, user, Shell, shell, name, shell);
          ShellLoopKeepsShell(users[1..], shell, SetField(db, user, Shell, shell), name);
        } else {
          ShellLoopKeepsShell(users[1..], shell, db, name);
        }
      }
    }
  }

  /** When the loop finishes, every listed user has the shell. */
  lemma {:induction false} ShellLoopSetsEveryShell(users: seq<string>, shell: string, db: seq<PasswdEntry>)
    requires ShellLoop(users, shell, db).status == Finished
    ensures AllShellsSet(users, shell, ShellLoop(users, shell, db).db)
    decreases |users|
  {
    if users != [] {
      var user := users[0];
      assert Getpwnam(db, user).Some?;
      var changed := Getpwnam(db, user).value.shell != shell;
      var next := if changed then SetField(db, user, Shell, shell) else db;
      ShellLoopFirst(users, shell, db);
      var o := ShellLoop(users, shell, db);
      var r := ShellLoop(users[1..], shell, next);
      assert o.db == r.db && o.status == r.status;
      ShellLoopSetsEveryShell(users[1..], shell, next);
      assert HasValue(next, user, Shell, shell) by {
        if changed {
          GetpwnamAfterSet(db, user, Shell, shell, user);
        }
      }
      ShellLoopKeepsShell(users[1..], shell, next, user);
      AllShellsSetCons(users, shell, o.db);
    }
  }

  /** A loop over users that all have the shell already changes nothing:
      it finishes, prints nothing and leaves the database as it was. */
  lemma {:induction false} ShellLoopOnSetShells(users: seq<string>, shell: string, db: seq<PasswdEntry>)
    requires AllShellsSet(users, shell, db)
    ensures ShellLoop(users, shell, db) == Outcome(Finished, [], db)
    decreases |users|
  {
    if users != [] {
      assert AllShellsSet(users[1..], shell, db) by {
        assert forall k :: 0 <= k < |users[1..]| ==> users[1..][k] == users[k + 1];
      }
      ShellLoopOnSetShells(users[1..], shell, db);
      assert HasValue(db, users[0], Shell, shell);
    }
  }

  /** The loop changes no name and no primary group. */
  lemma {:induction false} ShellLoopKeepsPrimaryUsers(users: seq<string>, shell: string, db: seq<PasswdEntry>, gid: int)
    ensures PrimaryUsers(ShellLoop(users, shell, db).db, gid) == PrimaryUsers(db, gid)
    decreases |users|
  {
    if users != [] {
      var user := users[0];
      if Getpwnam(db, user).Some? {
        var changed := Getpwnam(db, user).value.shell != shell;
        var next := if changed then SetField(db, user, Shell, shell) else db;
        ShellLoopFirst(users, shell, db);
        ShellLoopKeepsPrimaryUsers(users[1..], shell, next, gid);
        if changed {
          PrimaryUsersAfterSet(db, user, Shell, shell, gid);
        }
      }
    }
  }

  /** Running the script again after a run that finished prints nothing and
      changes nothing. */
  lemma ShellIdempotent(argv: seq<string>, groups: seq<GroupEntry>, passwd: seq<PasswdEntry>, executables: set<string>)
    requires EnsureShellRun(argv, groups, passwd, executables).status == Finished
    ensures var first := EnsureShellRun(argv, groups, passwd, executables);
      EnsureShellRun(argv, groups, first.db, executables) == Outcome(Finished, [], first.db)
  {
    var group := Getgrnam(groups, argv[1]).value;
    var users := GroupUsers(group, passwd);
    var first := ShellLoop(users, argv[2], passwd);
    ShellLoopSetsEveryShell(users, argv[2], passwd);
    ShellLoopKeepsPrimaryUsers(users, argv[2], passwd, group.gid);
    assert GroupUsers(group, first.db) == users;
    ShellLoopOnSetShells(users, argv[2], first.db);
  }

  /** A shell that is not an executable file ends the script with exit code
      1 before any `chsh`, whatever else the arguments say. */
  lemma InvalidShellChangesNothing(argv: seq<string>, groups: seq<GroupEntry>, passwd: seq<PasswdEntry>,
                                   executables: set<string>)
    requires |argv| >= 3 && argv[2] !in executables
    ensures var o := EnsureShellRun(argv, groups, passwd, executables);
      && o.status == Exit(1) && o.db == passwd
      && forall i :: 0 <= i < |o.events| ==> !o.events[i].SetShell?
  {
  }

  /** Every event of `es` is a `chsh` of a user of `users` to `shell`. */
  predicate AllChshOfListed(es: seq<Event>, users: seq<string>, shell: string) {
    forall i :: 0 <= i < |es| ==> es[i].SetShell? && es[i].shell == shell && es[i].user in users
  }

  lemma ChshConcat(a: seq<Event>, b: seq<Event>, users: seq<string>, shell: string)
    requires |users| > 0
    requires AllChshOfListed(a, users, shell) && AllChshOfListed(b, users[1..], shell)
    ensures AllChshOfListed(a + b, users, shell)
  {
    forall i | 0 <= i < |a + b| ensures (a + b)[i].SetShell? && (a + b)[i].shell == shell && (a + b)[i].user in users {
      if i >= |a| {
        assert (a + b)[i] == b[i - |a|];
        assert b[i - |a|].user in users[1..];
      }
    }
  }

  /** Every event of the loop is a `chsh` of a listed user to the shell,
      issued at most once per entry of the user list. */
  lemma {:induction false} ShellEventsExplained(users: seq<string>, shell: string, db: seq<PasswdEntry>)
    ensures var es := ShellLoop(users, shell, db).events;
      |es| <= |users| && AllChshOfListed(es, users, shell)
    decreases |users|
  {
    if users != [] {
      var user := users[0];
      if Getpwnam(db, user).Some? {
        var changed := Getpwnam(db, user).value.shell != shell;
        var next := if changed then SetField(db, user, Shell, shell) else db;
        var head := if changed then [SetShell(shell, user)] else [];
        var rest := ShellLoop(users[1..], shell, next).events;
        ShellLoopFirst(users, shell, db);
        ShellEventsExplained(users[1..], shell, next);
        ChshConcat(head, rest, users, shell);
        assert ShellLoop(users, shell, db).events == head + rest;
      } else {
        assert ShellLoop(users, shell, db).events == [];
      }
    }
  }

  // ---------------------------------------------------------------------------
  // the script
  // ---------------------------------------------------------------------------

  /** The `for user in users` loop, which updates the password database as
      `chsh` would. */
  method UpdateShells(users: seq<string>, shell: string, passwd: seq<PasswdEntry>)
    returns (status: Status, events: seq<Event>, db: seq<PasswdEntry>)
    ensures Outcome(status, events, db) == ShellLoop(users, shell, passwd)
  {
    events, db := [], passwd;
    var i := 0;
    while i < |users|
      invariant 0 <= i <= |users|
      invariant After(events, ShellLoop(users[i..], shell, db)) == ShellLoop(users, shell, passwd)
    {
      var user := users[i];
      assert users[i..][0] == user && users[i..][1..] == users[i + 1..];
      var pw := Getpwnam(db, user);
      if pw.None? {
        assert events + [] == events;
        return NoSuchUser(user), events, db;
      }
      ShellLoopFirst(users[i..], shell, db);
      ghost var events0, db0 := events, db;
      ghost var change := if pw.value.shell != shell then [SetShell(shell, user)] else [];
      if pw.value.shell != shell {
        events := events + [SetShell(shell, user)];
        db := SetField(db, user, Shell, shell);
      }
      AfterAfter(events0, change, ShellLoop(users[i + 1..], shell, db));
      i := i + 1;
    }
    status := Finished;
  }

  /** The script: the argument check, the group lookup, the user list, the
      shell check and the loop. */
  method EnsureShell(argv: seq<string>, groups: seq<GroupEntry>, passwd: seq<PasswdEntry>, executables: set<string>)
    returns (status: Status, events: seq<Event>, db: seq<PasswdEntry>)
    ensures Outcome(status, events, db) == EnsureShellRun(argv, groups, passwd, executables)
    ensures |argv| < 3 ==> status == Exit(1) && events == [Usage]
    ensures |argv| >= 3 && Getgrnam(groups, argv[1]).None? ==> status == Exit(1) && events == [GroupNotFound(argv[1])]
  {
    if |argv| < 3 {
      return Exit(1), [Usage], passwd;
    }
    var groupName, shell := argv[1], argv[2];
    var group := Getgrnam(groups, groupName);
    if group.None? {
      return Exit(1), [GroupNotFound(groupName)], passwd;
    }
    var users := GroupUsers(group.value, passwd);
    if shell !in executables {
      return Exit(1), [InvalidShell(shell)], passwd;
    }
    status, events, db := UpdateShells(users, shell, passwd);
  }
}
