/**
 * The `ActionBase` class shared, line for line, by real-time_settings.py and
 * real-time_helper.py, and the `CheckForRealTimeKernel`, `Cron` and `Tlp`
 * actions both scripts define the same way.
 *
 * The machine the script runs on is a value: the first line of
 * `/sys/kernel/realtime` (when it is a file), the kernel release and version,
 * the number of CPUs, the user id, and the text `systemctl list-unit-files`
 * prints. What the script does to the machine, or prints instead in simulate
 * mode, is recorded as a sequence of effects.
 */
module RealTimeActions {

  import opened Common
  import opened Strings

  datatype Machine = Machine(rtFile: Option<string>, release: string, version: string,
                             cpus: nat, uid: int, unitListing: string)

  /** A command the script executes through `execute_safely`. */
  datatype Command = Systemctl(verb: string, unit: string) | CopyFile(src: string, dst: string)

  datatype Effect =
    | Call(cmd: Command)          // the command is executed
    | WouldCall(cmd: Command)     // simulate mode: "simulating - would execute: ..."
    | NotRealTimeKernel           // logging.error of CheckForRealTimeKernel
    | RootWarning                 // logging.warn when not run as root
    | Listed(name: string)        // --list prints an action name
    | Hint                        // neither `on` nor `off` was given

  /** The `on_or_off` argument. */
  datatype Switch = On | Off

  // ---------------------------------------------------------------------------
  // the unit listing
  // ---------------------------------------------------------------------------

  /** `str.rfind` for one character: the last index of `c`, or -1. */
  function RFind(s: string, c: char): (i: int)
    ensures -1 <= i < |s|
    ensures i >= 0 ==> s[i] == c
    ensures forall j :: i < j < |s| ==> s[j] != c
  {
    if |s| == 0 then -1
    else if s[|s| - 1] == c then |s| - 1
    else RFind(s[..|s| - 1], c)
  }

  /** `posixpath.splitext(p)[0]`: the extension starts at the last dot of the
      last path component, unless only dots come before it in that component. */
  function SplitExtRoot(p: string): (root: string)
    ensures StartsWith(p, root)
    ensures root != p ==> p[|root|] == '.' && |root| > 0 && p[|root| - 1] != '/'
    ensures root != p ==> forall j :: |root| < j < |p| ==> p[j] != '.' && p[j] != '/'
    ensures root != p ==> exists k :: RFind(p, '/') < k < |root| && p[k] != '.'
    ensures (exists d, k :: RFind(p, '/') < k < d < |p| && p[d] == '.' && p[k] != '.') ==> root != p
  {
    var sep := RFind(p, '/');
    var dot := RFind(p, '.');
    if dot > sep && exists k :: sep < k < dot && p[k] != '.' then p[..dot] else p
  }

  /** `rfind` finds the occurrence after which `c` does not occur again. */
  lemma {:induction false} RFindLast(s: string, c: char, i: int)
    requires -1 <= i < |s| && (i >= 0 ==> s[i] == c)
    requires forall j :: i < j < |s| ==> s[j] != c
    ensures RFind(s, c) == i
    decreases |s|
  {
    if |s| > 0 && s[|s| - 1] != c {
      RFindLast(s[..|s| - 1], c, i);
    }
  }

  /** The extension is cut at the last dot only; a name made of a leading dot
      and an extension-like tail keeps it. */
  lemma SplitExtExamples()
    ensures SplitExtRoot("cron.service") == "cron"
    ensures SplitExtRoot("getty@.service") == "getty@"
    ensures SplitExtRoot(".service") == ".service"
    ensures SplitExtRoot("tlp") == "tlp"
    ensures SplitExtRoot("..x") == "..x"
  {
    RFindLast("..x", '.', 1);
    RFindLast("..x", '/', -1);
    RFindLast("cron.service", '.', 4);
    RFindLast("cron.service", '/', -1);
    RFindLast("getty@.service", '.', 6);
    RFindLast("getty@.service", '/', -1);
    RFindLast(".service", '.', 0);
    RFindLast(".service", '/', -1);
    RFindLast("tlp", '.', -1);
    RFindLast("tlp", '/', -1);
    assert "cron.service"[0] != '.';
    assert "getty@.service"[0] != '.';
  }

  /** The lines of the listing between its header and its last three lines:
      `output.split("\n")[1:-3]`. */
  function UnitLines(listing: string): (lines: seq<string>)
    ensures |lines| == if |Split(listing, "\n")| > 4 then |Split(listing, "\n")| - 4 else 0
    ensures forall i :: 0 <= i < |lines| ==> lines[i] == Split(listing, "\n")[i + 1]
  {
    var all := Split(listing, "\n");
    if |all| - 3 > 1 then all[1..|all| - 3] else []
  }

  /** The service name a unit line yields: its first space-separated field without extension. */
  function UnitName(line: string): string {
    SplitExtRoot(Split(line, " ")[0])
  }

  /** The non-empty values of `f` on `lines`, in order. */
  function NonEmptyImages(lines: seq<string>, f: string -> string): (names: seq<string>)
    ensures forall i :: 0 <= i < |names| ==> names[i] != ""
  {
    if lines == [] then []
    else
      var name := f(lines[|lines| - 1]);
      NonEmptyImages(lines[..|lines| - 1], f) + (if name != "" then [name] else [])
  }

  /** The non-empty unit names of `lines`, in order. */
  function NamesOf(lines: seq<string>): seq<string> {
    NonEmptyImages(lines, UnitName)
  }

  lemma NamesOfPrefix(lines: seq<string>, i: nat)
    requires i < |lines|
    ensures NamesOf(lines[..i + 1])
      == NamesOf(lines[..i]) + (if UnitName(lines[i]) != "" then [UnitName(lines[i])] else [])
  {
    assert lines[..i + 1][..i] == lines[..i];
  }

  /** The content of the service cache. */
  function ServiceNames(listing: string): seq<string> {
    NamesOf(UnitLines(listing))
  }

  /** Every kept value is a non-empty value of `f` on some line. */
  lemma {:induction false} KeptImageHasLine(lines: seq<string>, f: string -> string, n: string)
    requires n in NonEmptyImages(lines, f)
    ensures exists i :: 0 <= i < |lines| && f(lines[i]) == n
    decreases |lines|
  {
    var k := |lines| - 1;
    var init := lines[..k];
    assert NonEmptyImages(lines, f) == NonEmptyImages(init, f) + (if f(lines[k]) != "" then [f(lines[k])] else []);
    if n in NonEmptyImages(init, f) {
      KeptImageHasLine(init, f, n);
      var i :| 0 <= i < |init| && f(init[i]) == n;
      assert lines[i] == init[i];
    } else {
      assert f(lines[k]) == n;
    }
  }

  /** Every non-empty value of `f` on a line is kept. */
  lemma {:induction false} LineImageKept(lines: seq<string>, f: string -> string, i: nat)
    requires i < |lines| && f(lines[i]) != ""
    ensures f(lines[i]) in NonEmptyImages(lines, f)
    decreases |lines|
  {
    var k := |lines| - 1;
    var init := lines[..k];
    assert NonEmptyImages(lines, f) == NonEmptyImages(init, f) + (if f(lines[k]) != "" then [f(lines[k])] else []);
    if i < k {
      assert init[i] == lines[i];
      LineImageKept(init, f, i);
    }
  }

  /** A value is kept exactly when it is non-empty and `f` yields it for some line. */
  lemma NonEmptyImagesMembers(lines: seq<string>, f: string -> string, n: string)
    ensures n in NonEmptyImages(lines, f) <==> n != "" && exists i :: 0 <= i < |lines| && f(lines[i]) == n
  {
    if n in NonEmptyImages(lines, f) {
      KeptImageHasLine(lines, f, n);
    }
    if n != "" && exists i :: 0 <= i < |lines| && f(lines[i]) == n {
      var i :| 0 <= i < |lines| && f(lines[i]) == n;
      LineImageKept(lines, f, i);
    }
  }

  /** A name is cached exactly when it is non-empty and some unit line yields it. */
  lemma NamesOfMembers(lines: seq<string>, n: string)
    ensures n in NamesOf(lines) <==> n != "" && exists i :: 0 <= i < |lines| && UnitName(lines[i]) == n
  {
    NonEmptyImagesMembers(lines, UnitName, n);
  }

  /** A listing of four lines or fewer has no service in it. */
  lemma ShortListingHasNoServices(listing: string)
    requires |Split(listing, "\n")| <= 4
    ensures ServiceNames(listing) == []
  {
  }

  // ---------------------------------------------------------------------------
  // the real-time kernel check
  // ---------------------------------------------------------------------------

  /** `readline()`: the text up to and including the first newline. */
  function ReadLine(content: string): (line: string)
    ensures StartsWith(content, line)
    ensures forall i :: 0 <= i < |line| - 1 ==> line[i] != '\n'
    ensures |line| < |content| ==> 0 < |line| && line[|line| - 1] == '\n'
  {
    if content == [] then []
    else if content[0] == '\n' then "\n"
    else [content[0]] + ReadLine(content[1..])
  }

  /** The kernel counts as real-time when the sysfs file's first line is `1`,
      the release ends in `+rt`, or the version mentions ` RT ` or ` PREEMPT `. */
  predicate IsRealTimeKernel(m: Machine) {
    || (m.rtFile.Some? && ReadLine(m.rtFile.value) == "1")
    || EndsWith(m.release, "+rt")
    || Contains(m.version, " RT ")
    || Contains(m.version, " PREEMPT ")
  }

  /** `readline()` keeps the newline, so a sysfs file holding `1` and a newline
      does not count; one holding just `1` does. */
  lemma SysfsLineMustBeBareOne(m: Machine, rest: string)
    ensures IsRealTimeKernel(m.(rtFile := Some("1\n" + rest))) == IsRealTimeKernel(m.(rtFile := None))
    ensures IsRealTimeKernel(m.(rtFile := Some("1")))
  {
    var content := "1\n" + rest;
    assert content[1..][0] == '\n';
    assert ReadLine(content) == "1\n";
  }

  /** What `CheckForRealTimeKernel` does when switching on: the error is
      logged exactly when the kernel does not look real-time. */
  function CheckEffects(m: Machine): (es: seq<Effect>)
    ensures es == [] || es == [NotRealTimeKernel]
    ensures es == [] <==> IsRealTimeKernel(m)
  {
    if IsRealTimeKernel(m) then [] else [NotRealTimeKernel]
  }

  // ---------------------------------------------------------------------------
  // execute_safely and service, as specification functions
  // ---------------------------------------------------------------------------

  /** `execute_safely`: executed, or only printed when simulating. */
  function Exec(simulate: bool, cmd: Command): (e: Effect)
    ensures e.Call? <==> !simulate
    ensures e.Call? || e.WouldCall?
    ensures e.cmd == cmd
  {
    if simulate then WouldCall(cmd) else Call(cmd)
  }

  /** `service(name, verb)`: `systemctl verb name` when the unit is known,
      nothing otherwise. */
  function ServiceEffect(simulate: bool, services: seq<string>, name: string, verb: string): (es: seq<Effect>)
    ensures |es| <= 1
    ensures es != [] <==> name in services
    ensures es != [] ==> es[0] == Exec(simulate, Systemctl(verb, name))
  {
    if name in services then [Exec(simulate, Systemctl(verb, name))] else []
  }

  /** The verb of `service_stop` (switching on) and `service_start` (switching off). */
  function Verb(on: bool): string {
    if on then "stop" else "start"
  }

  /** `Cron`: both cron daemons, `cron` first. */
  function CronEffects(simulate: bool, services: seq<string>, on: bool): seq<Effect> {
    ServiceEffect(simulate, services, "cron", Verb(on)) + ServiceEffect(simulate, services, "crond", Verb(on))
  }

  /** `Tlp`. */
  function TlpEffects(simulate: bool, services: seq<string>, on: bool): seq<Effect> {
    ServiceEffect(simulate, services, "tlp", Verb(on))
  }

  // ---------------------------------------------------------------------------
  // properties of effect sequences
  // ---------------------------------------------------------------------------

  /** Nothing is executed. */
  predicate NoCall(es: seq<Effect>) {
    forall i :: 0 <= i < |es| ==> !es[i].Call?
  }

  /** No command touches the unit `name`. */
  predicate LeavesUnit(es: seq<Effect>, name: string) {
    forall i :: 0 <= i < |es| ==> (es[i].Call? || es[i].WouldCall?) ==>
      !(es[i].cmd.Systemctl? && es[i].cmd.unit == name)
  }

  /** Regrouping a concatenation of effect logs; stated apart because the
      methods that append to `effects` cannot afford the sequence reasoning
      in their own context. */
  lemma AppendAssoc(a: seq<Effect>, b: seq<Effect>, c: seq<Effect>)
    ensures a + b + c == a + (b + c)
  {
  }

  lemma NoCallConcat(a: seq<Effect>, b: seq<Effect>)
    requires NoCall(a) && NoCall(b)
    ensures NoCall(a + b)
  {
    forall i | 0 <= i < |a + b| ensures !(a + b)[i].Call? {
      if i >= |a| {
        assert (a + b)[i] == b[i - |a|];
      }
    }
  }

  lemma LeavesUnitConcat(a: seq<Effect>, b: seq<Effect>, name: string)
    requires LeavesUnit(a, name) && LeavesUnit(b, name)
    ensures LeavesUnit(a + b, name)
  {
    forall i | 0 <= i < |a + b| && ((a + b)[i].Call? || (a + b)[i].WouldCall?)
      ensures !((a + b)[i].cmd.Systemctl? && (a + b)[i].cmd.unit == name)
    {
      if i >= |a| {
        assert (a + b)[i] == b[i - |a|];
      }
    }
  }

  /** What a whole run does not do, its beginning does not do either. */
  lemma NoCallPrefix(a: seq<Effect>, b: seq<Effect>)
    requires NoCall(a + b)
    ensures NoCall(a)
  {
    forall i | 0 <= i < |a| ensures !a[i].Call? {
      assert (a + b)[i] == a[i];
    }
  }

  lemma LeavesUnitPrefix(a: seq<Effect>, b: seq<Effect>, name: string)
    requires LeavesUnit(a + b, name)
    ensures LeavesUnit(a, name)
  {
    forall i | 0 <= i < |a| && (a[i].Call? || a[i].WouldCall?)
      ensures !(a[i].cmd.Systemctl? && a[i].cmd.unit == name)
    {
      assert (a + b)[i] == a[i];
    }
  }

  /** Simulated actions execute nothing. */
  lemma SimulatedActionsExecuteNothing(m: Machine, services: seq<string>, on: bool)
    ensures NoCall(CheckEffects(m))
    ensures NoCall(CronEffects(true, services, on))
    ensures NoCall(TlpEffects(true, services, on))
  {
    NoCallConcat(ServiceEffect(true, services, "cron", Verb(on)), ServiceEffect(true, services, "crond", Verb(on)));
  }

  /** A unit that is not in the cache is never passed to systemctl. */
  lemma UnknownUnitUntouched(simulate: bool, m: Machine, services: seq<string>, on: bool, name: string)
    requires name !in services
    ensures LeavesUnit(CheckEffects(m), name)
    ensures LeavesUnit(CronEffects(simulate, services, on), name)
    ensures LeavesUnit(TlpEffects(simulate, services, on), name)
  {
    LeavesUnitConcat(ServiceEffect(simulate, services, "cron", Verb(on)),
                     ServiceEffect(simulate, services, "crond", Verb(on)), name);
  }

  /** With both units known, `Cron` issues exactly two commands: `cron` and
      then `crond`, stopped when switching on and started when switching off. */
  lemma CronOrder(simulate: bool, services: seq<string>, on: bool)
    requires "cron" in services && "crond" in services
    ensures |CronEffects(simulate, services, on)| == 2
    ensures CronEffects(simulate, services, on)[0].cmd == Systemctl(if on then "stop" else "start", "cron")
    ensures CronEffects(simulate, services, on)[1].cmd == Systemctl(if on then "stop" else "start", "crond")
  {
  }

  // ---------------------------------------------------------------------------
  // the shared state
  // ---------------------------------------------------------------------------

  /** The state all actions share: the `--simulate` flag, the machine, the
      class-level `_available_services_cache` (absent until the first
      `service` call), the number of times the unit listing was requested, and
      the effects so far. */
  class ActionBase {
    const simulate: bool
    const machine: Machine
    var cache: Option<seq<string>>
    var listings: nat
    var effects: seq<Effect>

    /** The cache, once there, holds the services of the one listing requested. */
    ghost predicate Valid()
      reads this
    {
      && (cache.None? ==> listings == 0)
      && (cache.Some? ==> cache.value == ServiceNames(machine.unitListing) && listings == 1)
    }

    constructor (simulate: bool, machine: Machine)
      ensures this.simulate == simulate && this.machine == machine
      ensures cache == None && listings == 0 && effects == []
      ensures Valid()
    {
      this.simulate := simulate;
      this.machine := machine;
      cache := None;
      listings := 0;
      effects := [];
    }

    /** The services known to `service`, whether or not the cache is filled yet. */
    function Services(): seq<string>
    {
      ServiceNames(machine.unitListing)
    }

    /** The first `service` call: the listing is requested once and the cache
        is filled by appending the non-empty names line by line. */
    method FillCache()
      requires cache.None?
      modifies this
      ensures cache == Some(ServiceNames(machine.unitListing))
      ensures listings == old(listings) + 1
      ensures effects == old(effects)
    {
      cache := Some([]);
      listings := listings + 1;
      var lines := UnitLines(machine.unitListing);
      for i := 0 to |lines|
        invariant cache.Some? && cache.value == NamesOf(lines[..i])
        invariant listings == old(listings) + 1 && effects == old(effects)
      {
        var name := SplitExtRoot(Split(lines[i], " ")[0]);
        assert name == UnitName(lines[i]);
        NamesOfPrefix(lines, i);
        if name != "" {
          cache := Some(cache.value + [name]);
        }
      }
      assert lines[..|lines|] == lines;
    }

    /** `execute_safely`. */
    method ExecuteSafely(cmd: Command)
      modifies this
      ensures effects == old(effects) + [Exec(simulate, cmd)]
      ensures cache == old(cache) && listings == old(listings)
    {
      if simulate {
        effects := effects + [WouldCall(cmd)];
      } else {
        effects := effects + [Call(cmd)];
      }
    }

    /** `service`: the listing is requested on the first call only; an
        unknown unit is skipped. */
    method Service(name: string, verb: string)
      requires Valid()
      modifies this
      ensures Valid() && cache.Some?
      ensures listings == if old(cache).None? then old(listings) + 1 else old(listings)
      ensures effects == old(effects) + ServiceEffect(simulate, Services(), name, verb)
    {
      if cache.None? {
        FillCache();
      }
      if name !in cache.value {
        return;
      }
      ExecuteSafely(Systemctl(verb, name));
    }

    /** `CheckForRealTimeKernel` switching on. */
    method CheckForRealTimeKernel()
      modifies this
      ensures effects == old(effects) + CheckEffects(machine)
      ensures cache == old(cache) && listings == old(listings)
    {
      var m := machine;
      if m.rtFile.Some? && ReadLine(m.rtFile.value) == "1" {
        return;
      }
      if EndsWith(m.release, "+rt") {
        return;
      }
      if Contains(m.version, " RT ") {
        return;
      }
      if Contains(m.version, " PREEMPT ") {
        return;
      }
      effects := effects + [NotRealTimeKernel];
    }

    /** `Cron`: stop (on) or start (off) `cron`, then `crond`. */
    method Cron(on: bool)
      requires Valid()
      modifies this
      ensures Valid() && cache.Some? && listings == 1
      ensures effects == old(effects) + CronEffects(simulate, Services(), on)
    {
      Service("cron", Verb(on));
      Service("crond", Verb(on));
    }

    /** `Tlp`: stop (on) or start (off) `tlp`. */
    method Tlp(on: bool)
      requires Valid()
      modifies this
      ensures Valid() && cache.Some? && listings == 1
      ensures effects == old(effects) + TlpEffects(simulate, Services(), on)
    {
      Service("tlp", Verb(on));
    }
  }
}
