/**
 * ensure_home_for_group.py: give every user of a group the home directory
 * `<home>`, with `%u` expanded to the user name. `isdir` is the set `dirs`
 * of existing directories.
 */
module GroupHome {

  import opened Common
  import opened Strings
  import opened Accounts

  /** `home.replace("%u", user)`. */
  function ExpandHome(template: string, user: string): string {
    ReplaceAll(template, "%u", user)
  }

  /** The expansion cuts the template at every `%u` and puts the user name
      in each cut; a template without `%u` is every user's home. */
  lemma ExpandHomeCharacterised(template: string, user: string)
    ensures ExpandHome(template, user) == Join(Split(template, "%u"), user)
    ensures !Contains(template, "%u") ==> ExpandHome(template, user) == template
  {
    ReplaceIsJoinOfSplit(template, "%u", user);
    if !Contains(template, "%u") {
      ReplaceAbsent(template, "%u", user);
    }
  }

  // ---------------------------------------------------------------------------
  // the loop, as a specification function
  // ---------------------------------------------------------------------------

  /** The `for user in users` loop from the database `db` on. */
  function HomeLoop(users: seq<string>, homeOf: string -> string, dirs: set<string>, db: seq<PasswdEntry>): Outcome
    decreases |users|
  {
    if users == [] then Outcome(Finished, [], db)
    else
      var user := users[0];
      var home := homeOf(user);
      var warning := if home in dirs then [] else [HomeMissing(home, user)];
      match Getpwnam(db, user)
      case None => Outcome(NoSuchUser(user), warning, db)
      case Some(pw) =>
        if pw.dir != home then After(warning + [SetHome(home, user)], HomeLoop(users[1..], homeOf, dirs, SetField(db, user, Dir, home)))
        else After(warning, HomeLoop(users[1..], homeOf, dirs, db))
  }

  /** The whole script on the arguments `argv`. */
  function EnsureHomeRun(argv: seq<string>, groups: seq<GroupEntry>, passwd: seq<PasswdEntry>, dirs: set<string>): Outcome {
    if |argv| < 3 then Outcome(Exit(1), [Usage], passwd)
    else
      match Getgrnam(groups, argv[1])
      case None => Outcome(Exit(1), [GroupNotFound(argv[1])], passwd)
      case Some(group) => HomeLoop(GroupUsers(group, passwd), u => ExpandHome(argv[2], u), dirs, passwd)
  }

  // ---------------------------------------------------------------------------
  // properties
  // ---------------------------------------------------------------------------

  /** Every user of `users` has its expanded home in `db`. */
  predicate AllHomesSet(users: seq<string>, homeOf: string -> string, db: seq<PasswdEntry>) {
    forall k :: 0 <= k < |users| ==> HasValue(db, users[k], Dir, homeOf(users[k]))
  }

  lemma AllHomesSetCons(users: seq<string>, homeOf: string -> string, db: seq<PasswdEntry>)
    requires users != []
    requires HasValue(db, users[0], Dir, homeOf(users[0])) && AllHomesSet(users[1..], homeOf, db)
    ensures AllHomesSet(users, homeOf, db)
  {
    forall k | 1 <= k < |users| ensures HasValue(db, users[k], Dir, homeOf(users[k])) {
      assert users[k] == users[1..][k - 1];
    }
  }

  /** A user whose home is already right stays so through the loop. */
  lemma {:induction false} HomeLoopKeepsHome(users: seq<string>, homeOf: string -> string, dirs: set<string>,
                                             db: seq<PasswdEntry>, name: string)
    requires HasValue(db, name, Dir, homeOf(name))
    ensures HasValue(HomeLoop(users, homeOf, dirs, db).db, name, Dir, homeOf(name))
    decreases |users|
  {
    if users != [] {
      var user := users[0];
      var home := homeOf(user);
      if Getpwnam(db, user).Some? {
        if Getpwnam(db, user).value.dir != home {
          SetKeepsValue(db, user, Dir, home, name, homeOf(name));
          HomeLoopKeepsHome(users[1..], homeOf, dirs, SetField(db, user, Dir, home), name);
        } else {
          HomeLoopKeepsHome(users[1..], homeOf, dirs, db, name);
        }
      }
    }
  }

  /** When the loop finishes, every listed user has its expanded home. */
  lemma {:induction false} HomeLoopSetsEveryHome(users: seq<string>, homeOf: string -> string, dirs: set<string>, db: seq<PasswdEntry>)
    requires HomeLoop(users, homeOf, dirs, db).status == Finished
    ensures AllHomesSet(users, homeOf, HomeLoop(users, homeOf, dirs, db).db)
    decreases |users|
  {
    if users != [] {
      var user := users[0];
      var home := homeOf(user);
      assert Getpwnam(db, user).Some?;
      var changed := Getpwnam(db, user).value.dir != home;
      var next := if changed then SetField(db, user, Dir, home) else db;
      HomeLoopFirst(users, homeOf, dirs, db);
      var o := HomeLoop(users, homeOf, dirs, db);
      var r := HomeLoop(users[1..], homeOf, dirs, next);
      assert o.db == r.db && o.status == r.status;
      HomeLoopSetsEveryHome(users[1..], homeOf, dirs, next);
      assert HasValue(next, user, Dir, home) by {
        if changed {
          GetpwnamAfterSet(db, user, Dir, home, user);
        }
      }
      HomeLoopKeepsHome(users[1..], homeOf, dirs, next, user);
      AllHomesSetCons(users, homeOf, o.db);
    }
  }

  /** A loop over users that all have their homes already changes nothing:
      it finishes, issues no `usermod` and leaves the database as it was. */
  lemma {:induction false} HomeLoopOnSetHomes(users: seq<string>, homeOf: string -> string, dirs: set<string>, db: seq<PasswdEntry>)
    requires AllHomesSet(users, homeOf, db)
    ensures var o := HomeLoop(users, homeOf, dirs, db);
      o.status == Finished && o.db == db && forall i :: 0 <= i < |o.events| ==> !o.events[i].SetHome?
    decreases |users|
  {
    if users != [] {
      assert AllHomesSet(users[1..], homeOf, db) by {
        assert forall k :: 0 <= k < |users[1..]| ==> users[1..][k] == users[k + 1];
      }
      HomeLoopOnSetHomes(users[1..], homeOf, dirs, db);
      assert HasValue(db, users[0], Dir, homeOf(users[0]));
    }
  }

  /** The loop changes no name and no primary group, so the user list of
      every group stays as it was. */
  lemma {:induction false} HomeLoopKeepsPrimaryUsers(users: seq<string>, homeOf: string -> string, dirs: set<string>,
                                                     db: seq<PasswdEntry>, gid: int)
    ensures PrimaryUsers(HomeLoop(users, homeOf, dirs, db).db, gid) == PrimaryUsers(db, gid)
    decreases |users|
  {
    if users != [] {
      var user := users[0];
      var home := homeOf(user);
      if Getpwnam(db, user).Some? {
        var changed := Getpwnam(db, user).value.dir != home;
        var next := if changed then SetField(db, user, Dir, home) else db;
        HomeLoopFirst(users, homeOf, dirs, db);
        HomeLoopKeepsPrimaryUsers(users[1..], homeOf, dirs, next, gid);
        if changed {
          PrimaryUsersAfterSet(db, user, Dir, home, gid);
        }
      }
    }
  }

  /** Running the script again after a run that finished changes nothing:
      it finishes as well, issues no `usermod` and leaves the database as
      the first run left it. */
  lemma HomeIdempotent(argv: seq<string>, groups: seq<GroupEntry>, passwd: seq<PasswdEntry>, dirs: set<string>)
    requires EnsureHomeRun(argv, groups, passwd, dirs).status == Finished
    ensures var first := EnsureHomeRun(argv, groups, passwd, dirs);
      var again := EnsureHomeRun(argv, groups, first.db, dirs);
      && again.status == Finished && again.db == first.db
      && forall i :: 0 <= i < |again.events| ==> !again.events[i].SetHome?
  {
    var group := Getgrnam(groups, argv[1]).value;
    var homeOf := u => ExpandHome(argv[2], u);
    var users := GroupUsers(group, passwd);
    var first := HomeLoop(users, homeOf, dirs, passwd);
    HomeLoopSetsEveryHome(users, homeOf, dirs, passwd);
    HomeLoopKeepsPrimaryUsers(users, homeOf, dirs, passwd, group.gid);
    assert GroupUsers(group, first.db) == users;
    HomeLoopOnSetHomes(users, homeOf, dirs, first.db);
  }

  /** Existing directories only decide the warnings: how the loop ends and
      what it changes do not depend on them. */
  lemma {:induction false} MissingDirectoryOnlyWarns(users: seq<string>, homeOf: string -> string, dirs: set<string>,
                                                    other: set<string>, db: seq<PasswdEntry>)
    ensures HomeLoop(users, homeOf, dirs, db).status == HomeLoop(users, homeOf, other, db).status
    ensures HomeLoop(users, homeOf, dirs, db).db == HomeLoop(users, homeOf, other, db).db
    decreases |users|
  {
    if users != [] {
      var user := users[0];
      var home := homeOf(user);
      if Getpwnam(db, user).Some? {
        var next := if Getpwnam(db, user).value.dir != home then SetField(db, user, Dir, home) else db;
        MissingDirectoryOnlyWarns(users[1..], homeOf, dirs, other, next);
      }
    }
  }

  /** `e` is a `usermod` of a user of `users` to its home, or the warning
      about such a home that is not an existing directory. */
  predicate HomeEventExplained(e: Event, users: seq<string>, homeOf: string -> string, dirs: set<string>) {
    && (e.SetHome? || e.HomeMissing?)
    && e.user in users && e.home == homeOf(e.user)
    && (e.HomeMissing? ==> e.home !in dirs)
  }

  /** What the loop prints for its first user, and the database it goes on with. */
  lemma HomeLoopFirst(users: seq<string>, homeOf: string -> string, dirs: set<string>, db: seq<PasswdEntry>)
    requires users != [] && Getpwnam(db, users[0]).Some?
    ensures var home := homeOf(users[0]);
      var changed := Getpwnam(db, users[0]).value.dir != home;
      var next := if changed then SetField(db, users[0], Dir, home) else db;
      HomeLoop(users, homeOf, dirs, db) == After(FirstUserEvents(users[0], home, dirs, changed), HomeLoop(users[1..], homeOf, dirs, next))
  {
  }

  predicate AllHomeEventsExplained(es: seq<Event>, users: seq<string>, homeOf: string -> string, dirs: set<string>) {
    forall i :: 0 <= i < |es| ==> HomeEventExplained(es[i], users, homeOf, dirs)
  }

  lemma ExplainedConcat(a: seq<Event>, b: seq<Event>, users: seq<string>, homeOf: string -> string, dirs: set<string>)
    requires |users| > 0
    requires AllHomeEventsExplained(a, users, homeOf, dirs) && AllHomeEventsExplained(b, users[1..], homeOf, dirs)
    ensures AllHomeEventsExplained(a + b, users, homeOf, dirs)
  {
    forall i | 0 <= i < |a + b| ensures HomeEventExplained((a + b)[i], users, homeOf, dirs) {
      if i >= |a| {
        assert (a + b)[i] == b[i - |a|];
        assert b[i - |a|].user in users[1..];
      }
    }
  }

  /** What the loop prints for its first user: the warning when the home is
      not a directory, then the `usermod` when the home `changed`. */
  function FirstUserEvents(user: string, home: string, dirs: set<string>, changed: bool): seq<Event> {
    (if home in dirs then [] else [HomeMissing(home, user)]) + (if changed then [SetHome(home, user)] else [])
  }

  lemma FirstUserEventsExplained(users: seq<string>, homeOf: string -> string, dirs: set<string>, changed: bool)
    requires users != []
    ensures AllHomeEventsExplained(FirstUserEvents(users[0], homeOf(users[0]), dirs, changed), users, homeOf, dirs)
  {
  }

  /** Every `usermod` sets a listed user's home to its expansion, and every
      warning names an expansion that is not an existing directory. */
  lemma {:induction false} HomeEventsExplained(users: seq<string>, homeOf: string -> string, dirs: set<string>, db: seq<PasswdEntry>)
    ensures AllHomeEventsExplained(HomeLoop(users, homeOf, dirs, db).events, users, homeOf, dirs)
    decreases |users|
  {
    if users != [] {
      var user := users[0];
      var home := homeOf(user);
      if Getpwnam(db, user).Some? {
        var changed := Getpwnam(db, user).value.dir != home;
        var next := if changed then SetField(db, user, Dir, home) else db;
        var head := FirstUserEvents(user, home, dirs, changed);
        var rest := HomeLoop(users[1..], homeOf, dirs, next).events;
        HomeLoopFirst(users, homeOf, dirs, db);
        HomeEventsExplained(users[1..], homeOf, dirs, next);
        FirstUserEventsExplained(users, homeOf, dirs, changed);
        ExplainedConcat(head, rest, users, homeOf, dirs);
        assert HomeLoop(users, homeOf, dirs, db).events == head + rest;
      } else {
        FirstUserEventsExplained(users, homeOf, dirs, false);
        assert HomeLoop(users, homeOf, dirs, db).events == FirstUserEvents(user, home, dirs, false);
      }
    }
  }

  // ---------------------------------------------------------------------------
  // the script
  // ---------------------------------------------------------------------------

  /** One pass of the loop body for `user`: the warning, the lookup, and
      the `usermod` when the home differs. `found` is false when `getpwnam`
      raises. */
  method UpdateHome(user: string, template: string, dirs: set<string>, db: seq<PasswdEntry>)
    returns (found: bool, printed: seq<Event>, next: seq<PasswdEntry>)
    ensures var home := ExpandHome(template, user);
      var warning := if home in dirs then [] else [HomeMissing(home, user)];
      && found == Getpwnam(db, user).Some?
      && (!found ==> printed == warning && next == db)
      && (found ==> var changed := Getpwnam(db, user).value.dir != home;
                    && printed == warning + (if changed then [SetHome(home, user)] else [])
                    && next == if changed then SetField(db, user, Dir, home) else db)
  {
    next := db;
    var home := ReplaceAll(template, "%u", user);
    printed := [];
    if home !in dirs {
      printed := printed + [HomeMissing(home, user)];
    }
    var pw := Getpwnam(db, user);
    if pw.None? {
      return false, printed, next;
    }
    if pw.value.dir != home {
      printed := printed + [SetHome(home, user)];
      next := SetField(db, user, Dir, home);
    }
    found := true;
  }

  /** The `for user in users` loop, which updates the password database as
      `usermod` would. */
  method UpdateHomes(users: seq<string>, template: string, dirs: set<string>, passwd: seq<PasswdEntry>)
    returns (status: Status, events: seq<Event>, db: seq<PasswdEntry>)
    ensures Outcome(status, events, db) == HomeLoop(users, u => ExpandHome(template, u), dirs, passwd)
  {
    ghost var homeOf := u => ExpandHome(template, u);
    events, db := [], passwd;
    var i := 0;
    while i < |users|
      invariant 0 <= i <= |users|
      invariant After(events, HomeLoop(users[i..], homeOf, dirs, db)) == HomeLoop(users, homeOf, dirs, passwd)
    {
      var user := users[i];
      assert users[i..][0] == user && users[i..][1..] == users[i + 1..];
      var found, printed, next := UpdateHome(user, template, dirs, db);
      if !found {
        assert HomeLoop(users[i..], homeOf, dirs, db) == Outcome(NoSuchUser(user), printed, db);
        AfterAfter(events, printed, Outcome(NoSuchUser(user), [], db));
        return NoSuchUser(user), events + printed, db;
      }
      HomeLoopFirst(users[i..], homeOf, dirs, db);
      AfterAfter(events, printed, HomeLoop(users[i + 1..], homeOf, dirs, next));
      events, db := events + printed, next;
      i := i + 1;
    }
    status := Finished;
  }

  /** The script: the argument check, the group lookup, the user list and
      the loop. */
  method EnsureHome(argv: seq<string>, groups: seq<GroupEntry>, passwd: seq<PasswdEntry>, dirs: set<string>)
    returns (status: Status, events: seq<Event>, db: seq<PasswdEntry>)
    ensures Outcome(status, events, db) == EnsureHomeRun(argv, groups, passwd, dirs)
    ensures |argv| < 3 ==> status == Exit(1) && events == [Usage]
    ensures |argv| >= 3 && Getgrnam(groups, argv[1]).None? ==> status == Exit(1) && events == [GroupNotFound(argv[1])]
  {
    if |argv| < 3 {
      return Exit(1), [Usage], passwd;
    }
    var groupName, template := argv[1], argv[2];
    var group := Getgrnam(groups, groupName);
    if group.None? {
      return Exit(1), [GroupNotFound(groupName)], passwd;
    }
    var users := GroupUsers(group.value, passwd);
    status, events, db := UpdateHomes(users, template, dirs, passwd);
  }
}
