/**
 * The user and group databases as ensure_home_for_group.py and
 * ensure_shell_for_group.py see them through `grp` and `pwd`, the user list
 * both scripts build, and what their runs report.
 *
 * The databases are values. A `usermod -d` or `chsh -s` the scripts issue
 * is assumed to succeed, and the local copy of the password database is
 * updated the way the command updates the real one, so that a later
 * `getpwnam` of the same user sees the new value.
 */
module Accounts {

  import opened Common

  /** A `pwd` entry: `pw_name`, `pw_gid`, `pw_dir`, `pw_shell`. */
  datatype PasswdEntry = PasswdEntry(name: string, gid: int, dir: string, shell: string)

  /** A `grp` entry: `gr_name`, `gr_gid`, `gr_mem`. */
  datatype GroupEntry = GroupEntry(name: string, gid: int, members: seq<string>)

  /** What a script prints, with the command it runs where there is one. */
  datatype Event =
    | Usage                                  // "Usage: ..." (too few arguments)
    | GroupNotFound(group: string)           // "ERROR: group '...' not found"
    | HomeMissing(home: string, user: string)  // "WARNING: home directory ... does not exist!"
    | SetHome(home: string, user: string)    // "Setting home ..." and `usermod -d home user`
    | InvalidShell(shell: string)            // "ERROR: this is not a valid shell: ..."
    | SetShell(shell: string, user: string)  // "Setting shell ..." and `chsh -s shell user`

  /** How a run ends: normally, by `exit(code)`, or with the `KeyError`
      `getpwnam` raises for a user without a password entry. */
  datatype Status = Finished | Exit(code: int) | NoSuchUser(user: string)

  datatype Outcome = Outcome(status: Status, events: seq<Event>, db: seq<PasswdEntry>)

  /** `outcome` with `events` printed before it. */
  function After(events: seq<Event>, outcome: Outcome): Outcome {
    outcome.(events := events + outcome.events)
  }

  lemma AfterAfter(first: seq<Event>, second: seq<Event>, outcome: Outcome)
    ensures After(first, After(second, outcome)) == After(first + second, outcome)
  {
    assert first + (second + outcome.events) == first + second + outcome.events;
  }

  // ---------------------------------------------------------------------------
  // lookups
  // ---------------------------------------------------------------------------

  /** `getgrnam`: the first group of that name; `None` stands for `KeyError`. */
  function Getgrnam(groups: seq<GroupEntry>, name: string): (r: Option<GroupEntry>)
    ensures r.None? <==> forall i :: 0 <= i < |groups| ==> groups[i].name != name
    ensures r.Some? ==> exists i :: 0 <= i < |groups| && groups[i] == r.value
                                    && r.value.name == name
                                    && forall j :: 0 <= j < i ==> groups[j].name != name
  {
    if groups == [] then None
    else if groups[0].name == name then Some(groups[0])
    else
      var r := Getgrnam(groups[1..], name);
      assert r.Some? ==> exists i :: 0 <= i < |groups[1..]| && groups[1..][i] == r.value
                                    && forall j :: 0 <= j < i ==> groups[1..][j].name != name;
      r
  }

  /** `getpwnam`: the first entry of that name; `None` stands for `KeyError`. */
  function Getpwnam(db: seq<PasswdEntry>, name: string): (r: Option<PasswdEntry>)
    ensures r.None? <==> forall i :: 0 <= i < |db| ==> db[i].name != name
    ensures r.Some? ==> r.value.name == name && exists i :: 0 <= i < |db| && db[i] == r.value
  {
    if db == [] then None
    else if db[0].name == name then Some(db[0])
    else
      var r := Getpwnam(db[1..], name);
      assert r.Some? ==> exists i :: 0 <= i < |db[1..]| && db[1..][i] == r.value;
      r
  }

  // ---------------------------------------------------------------------------
  // the user list
  // ---------------------------------------------------------------------------

  /** `[u.pw_name for u in getpwall() if u.pw_gid == gid]`. */
  function PrimaryUsers(db: seq<PasswdEntry>, gid: int): (names: seq<string>)
    ensures |names| <= |db|
  {
    if db == [] then []
    else (if db[0].gid == gid then [db[0].name] else []) + PrimaryUsers(db[1..], gid)
  }

  /** A name is listed exactly when some entry with that primary group has it. */
  lemma {:induction false} PrimaryUsersMembers(db: seq<PasswdEntry>, gid: int, user: string)
    ensures user in PrimaryUsers(db, gid) <==> exists i :: 0 <= i < |db| && db[i].gid == gid && db[i].name == user
  {
    if db != [] {
      PrimaryUsersMembers(db[1..], gid, user);
      if exists i :: 0 <= i < |db| && db[i].gid == gid && db[i].name == user {
        var i :| 0 <= i < |db| && db[i].gid == gid && db[i].name == user;
        if i > 0 {
          assert db[1..][i - 1] == db[i];
        }
      }
      if exists i :: 0 <= i < |db[1..]| && db[1..][i].gid == gid && db[1..][i].name == user {
        var i :| 0 <= i < |db[1..]| && db[1..][i].gid == gid && db[1..][i].name == user;
        assert db[i + 1] == db[1..][i];
      }
    }
  }

  /** `group_users + primary_group_users`: the members first, in their order,
      then the primary-group users in password-database order; a user in
      both lists appears twice. */
  function GroupUsers(group: GroupEntry, db: seq<PasswdEntry>): (users: seq<string>)
    ensures |users| == |group.members| + |PrimaryUsers(db, group.gid)|
    ensures users[..|group.members|] == group.members
    ensures users[|group.members|..] == PrimaryUsers(db, group.gid)
  {
    group.members + PrimaryUsers(db, group.gid)
  }

  /** A user is listed exactly when it is a member of the group or has the
      group as its primary group. */
  lemma GroupUsersMembers(group: GroupEntry, db: seq<PasswdEntry>, user: string)
    ensures user in GroupUsers(group, db)
      <==> user in group.members || exists i :: 0 <= i < |db| && db[i].gid == group.gid && db[i].name == user
  {
    PrimaryUsersMembers(db, group.gid, user);
  }

  // ---------------------------------------------------------------------------
  // the effect of usermod and chsh on the password database
  // ---------------------------------------------------------------------------

  datatype Field = Dir | Shell

  function FieldOf(e: PasswdEntry, f: Field): string {
    match f
    case Dir => e.dir
    case Shell => e.shell
  }

  function WithField(e: PasswdEntry, f: Field, value: string): (r: PasswdEntry)
    ensures FieldOf(r, f) == value && r.name == e.name
  {
    match f
    case Dir => e.(dir := value)
    case Shell => e.(shell := value)
  }

  /** The database after `usermod -d value user` or `chsh -s value user`. */
  function SetField(db: seq<PasswdEntry>, user: string, f: Field, value: string): (r: seq<PasswdEntry>)
    ensures |r| == |db|
    ensures forall i :: 0 <= i < |db| ==> r[i] == if db[i].name == user then WithField(db[i], f, value) else db[i]
  {
    if db == [] then []
    else [if db[0].name == user then WithField(db[0], f, value) else db[0]] + SetField(db[1..], user, f, value)
  }

  /** After the change, the user's entry carries the new value and every
      other user's entry is what it was. */
  lemma {:induction false} GetpwnamAfterSet(db: seq<PasswdEntry>, user: string, f: Field, value: string, name: string)
    ensures Getpwnam(SetField(db, user, f, value), name)
      == if name == user && Getpwnam(db, name).Some? then Some(WithField(Getpwnam(db, name).value, f, value))
         else Getpwnam(db, name)
  {
    if db != [] {
      GetpwnamAfterSet(db[1..], user, f, value, name);
      assert SetField(db, user, f, value)[1..] == SetField(db[1..], user, f, value);
    }
  }

  /** Changing a home or a shell leaves every primary-group user list as it was. */
  lemma {:induction false} PrimaryUsersAfterSet(db: seq<PasswdEntry>, user: string, f: Field, value: string, gid: int)
    ensures PrimaryUsers(SetField(db, user, f, value), gid) == PrimaryUsers(db, gid)
  {
    if db != [] {
      PrimaryUsersAfterSet(db[1..], user, f, value, gid);
      assert SetField(db, user, f, value)[1..] == SetField(db[1..], user, f, value);
    }
  }

  /** The user `name` exists with `value` in field `f`. */
  predicate HasValue(db: seq<PasswdEntry>, name: string, f: Field, value: string) {
    Getpwnam(db, name).Some? && FieldOf(Getpwnam(db, name).value, f) == value
  }

  /** Setting a field of one user keeps every user's value in that field
      that the change does not contradict. */
  lemma SetKeepsValue(db: seq<PasswdEntry>, user: string, f: Field, value: string, name: string, v: string)
    requires HasValue(db, name, f, v)
    requires name == user ==> value == v
    ensures HasValue(SetField(db, user, f, value), name, f, v)
  {
    GetpwnamAfterSet(db, user, f, value, name);
  }
}
