/**
 * real-time_settings.py: the registered actions, `--list`, the root warning,
 * and switching every action on or off in registration order, including
 * `FrequencyScaling`, which sets the lowest allowed frequency of every CPU.
 */
module RealTimeSettings {

  import opened Common
  import opened Strings
  import opened RealTimeActions

  datatype Action = CheckForRealTimeKernel | Cron | Tlp | FrequencyScaling

  /** The action classes in the order they are appended to `actions`. */
  const Actions: seq<Action> := [CheckForRealTimeKernel, Cron, Tlp, FrequencyScaling]

  /** `Action.__name__`. */
  function ActionName(a: Action): string {
    match a
    case CheckForRealTimeKernel => "CheckForRealTimeKernel"
    case Cron => "Cron"
    case Tlp => "Tlp"
    case FrequencyScaling => "FrequencyScaling"
  }

  // ---------------------------------------------------------------------------
  // frequency scaling
  // ---------------------------------------------------------------------------

  /** `path.join(CPUFREQ_BASE_PATH, file) % cpu`. */
  function CpuFreqPath(cpu: nat, file: string): string {
    "/sys/devices/system/cpu/cpu" + DecimalString(cpu) + "/cpufreq/" + file
  }

  /** The file copied to `scaling_min_freq`: the highest frequency when
      switching on, the lowest when switching off. */
  function FreqSource(on: bool): string {
    if on then "cpuinfo_max_freq" else "cpuinfo_min_freq"
  }

  /** One copy per CPU `0 .. cpus - 1`, in that order. */
  function FreqEffects(simulate: bool, cpus: nat, on: bool): (es: seq<Effect>)
    ensures |es| == cpus
    ensures forall i :: 0 <= i < cpus ==>
      es[i] == Exec(simulate, CopyFile(CpuFreqPath(i, FreqSource(on)), CpuFreqPath(i, "scaling_min_freq")))
  {
    if cpus == 0 then []
    else FreqEffects(simulate, cpus - 1, on)
         + [Exec(simulate, CopyFile(CpuFreqPath(cpus - 1, FreqSource(on)), CpuFreqPath(cpus - 1, "scaling_min_freq")))]
  }

  // ---------------------------------------------------------------------------
  // dispatch, as specification functions
  // ---------------------------------------------------------------------------

  /** `rt_settings_on` / `rt_settings_off` of one action; the real-time check
      does nothing when switching off. */
  function ActionEffects(a: Action, sw: Switch, simulate: bool, services: seq<string>, m: Machine): seq<Effect> {
    var on := sw == On;
    match a
    case CheckForRealTimeKernel => if on then CheckEffects(m) else []
    case Cron => CronEffects(simulate, services, on)
    case Tlp => TlpEffects(simulate, services, on)
    case FrequencyScaling => FreqEffects(simulate, m.cpus, on)
  }

  /** The actions of `acts`, switched one after the other. */
  function SwitchEffects(acts: seq<Action>, sw: Switch, simulate: bool, services: seq<string>, m: Machine): seq<Effect> {
    if acts == [] then []
    else SwitchEffects(acts[..|acts| - 1], sw, simulate, services, m) + ActionEffects(acts[|acts| - 1], sw, simulate, services, m)
  }

  /** The names `--list` prints. */
  function ListedNames(acts: seq<Action>): (es: seq<Effect>)
    ensures |es| == |acts|
    ensures forall i :: 0 <= i < |acts| ==> es[i] == Listed(ActionName(acts[i]))
  {
    if acts == [] then [] else ListedNames(acts[..|acts| - 1]) + [Listed(ActionName(acts[|acts| - 1]))]
  }

  /** Everything the script does after parsing its arguments, when the unit
      listing yields `services`. */
  function RunEffects(simulate: bool, m: Machine, services: seq<string>, list: bool, sw: Option<Switch>): seq<Effect> {
    if list then ListedNames(Actions)
    else
      (if sw.Some? && m.uid != 0 then [RootWarning] else [])
      + (if sw.Some? then SwitchEffects(Actions, sw.value, simulate, services, m) else [Hint])
  }

  // ---------------------------------------------------------------------------
  // properties
  // ---------------------------------------------------------------------------

  /** Switching all actions is the four actions' effects in registration order. */
  lemma SwitchInRegistrationOrder(sw: Switch, simulate: bool, services: seq<string>, m: Machine)
    ensures SwitchEffects(Actions, sw, simulate, services, m)
      == ActionEffects(CheckForRealTimeKernel, sw, simulate, services, m) + ActionEffects(Cron, sw, simulate, services, m)
         + ActionEffects(Tlp, sw, simulate, services, m) + ActionEffects(FrequencyScaling, sw, simulate, services, m)
  {
    var three := [CheckForRealTimeKernel, Cron, Tlp];
    var two := [CheckForRealTimeKernel, Cron];
    var one := [CheckForRealTimeKernel];
    assert Actions[..3] == three && three[..2] == two && two[..1] == one && one[..0] == [];
    assert SwitchEffects(one, sw, simulate, services, m) == ActionEffects(CheckForRealTimeKernel, sw, simulate, services, m);
    assert SwitchEffects(two, sw, simulate, services, m)
      == SwitchEffects(one, sw, simulate, services, m) + ActionEffects(Cron, sw, simulate, services, m);
    assert SwitchEffects(three, sw, simulate, services, m)
      == SwitchEffects(two, sw, simulate, services, m) + ActionEffects(Tlp, sw, simulate, services, m);
  }

  /** `--list` prints the four names in registration order and does nothing else. */
  lemma ListOnlyPrintsNames(simulate: bool, m: Machine, services: seq<string>, sw: Option<Switch>)
    ensures var es := RunEffects(simulate, m, services, true, sw);
      && |es| == 4
      && es[0] == Listed("CheckForRealTimeKernel") && es[1] == Listed("Cron")
      && es[2] == Listed("Tlp") && es[3] == Listed("FrequencyScaling")
  {
  }

  /** Without `on` or `off`, only the hint is printed. */
  lemma NoSwitchOnlyHints(simulate: bool, m: Machine, services: seq<string>)
    ensures RunEffects(simulate, m, services, false, None) == [Hint]
  {
  }

  /** One simulated action executes nothing. */
  lemma SimulatedActionExecutesNothing(a: Action, sw: Switch, services: seq<string>, m: Machine)
    ensures NoCall(ActionEffects(a, sw, true, services, m))
  {
    SimulatedActionsExecuteNothing(m, services, sw == On);
  }

  /** One action leaves alone every unit missing from the listing. */
  lemma ActionLeavesUnknownUnit(a: Action, sw: Switch, simulate: bool, services: seq<string>, m: Machine, name: string)
    requires name !in services
    ensures LeavesUnit(ActionEffects(a, sw, simulate, services, m), name)
  {
    UnknownUnitUntouched(simulate, m, services, sw == On, name);
  }

  /** Simulated actions, switched one after the other, execute nothing. */
  lemma {:induction false} SimulatedSwitchExecutesNothing(acts: seq<Action>, sw: Switch, services: seq<string>, m: Machine)
    ensures NoCall(SwitchEffects(acts, sw, true, services, m))
  {
    if acts != [] {
      var last := |acts| - 1;
      SimulatedSwitchExecutesNothing(acts[..last], sw, services, m);
      SimulatedActionExecutesNothing(acts[last], sw, services, m);
      NoCallConcat(SwitchEffects(acts[..last], sw, true, services, m), ActionEffects(acts[last], sw, true, services, m));
    }
  }

  /** Actions switched one after the other leave alone every unit missing
      from the listing. */
  lemma {:induction false} SwitchLeavesUnknownUnit(acts: seq<Action>, sw: Switch, simulate: bool, services: seq<string>,
                                                    m: Machine, name: string)
    requires name !in services
    ensures LeavesUnit(SwitchEffects(acts, sw, simulate, services, m), name)
  {
    if acts != [] {
      var last := |acts| - 1;
      SwitchLeavesUnknownUnit(acts[..last], sw, simulate, services, m, name);
      ActionLeavesUnknownUnit(acts[last], sw, simulate, services, m, name);
      LeavesUnitConcat(SwitchEffects(acts[..last], sw, simulate, services, m),
                       ActionEffects(acts[last], sw, simulate, services, m), name);
    }
  }

  /** With `--simulate`, nothing is ever executed. */
  lemma SimulateExecutesNothing(m: Machine, services: seq<string>, list: bool, sw: Option<Switch>)
    ensures NoCall(RunEffects(true, m, services, list, sw))
  {
    if !list && sw.Some? {
      SimulatedSwitchExecutesNothing(Actions, sw.value, services, m);
      NoCallConcat(if m.uid != 0 then [RootWarning] else [], SwitchEffects(Actions, sw.value, true, services, m));
    }
  }

  /** A unit missing from the listing is never started or stopped. */
  lemma UnknownServiceUntouched(simulate: bool, m: Machine, services: seq<string>, list: bool, sw: Option<Switch>, name: string)
    requires name !in services
    ensures LeavesUnit(RunEffects(simulate, m, services, list, sw), name)
  {
    if !list && sw.Some? {
      SwitchLeavesUnknownUnit(Actions, sw.value, simulate, services, m, name);
      LeavesUnitConcat(if m.uid != 0 then [RootWarning] else [], SwitchEffects(Actions, sw.value, simulate, services, m), name);
    }
  }

  /** Switching on ends with one copy of `cpuinfo_max_freq` to
      `scaling_min_freq` per CPU, in CPU order; switching off does the same
      with `cpuinfo_min_freq`. */
  lemma FrequencyScalingLast(simulate: bool, m: Machine, services: seq<string>, sw: Switch)
    ensures var es := RunEffects(simulate, m, services, false, Some(sw));
      && |es| >= m.cpus
      && forall i :: 0 <= i < m.cpus ==>
           es[|es| - m.cpus + i].cmd
             == CopyFile(CpuFreqPath(i, if sw == On then "cpuinfo_max_freq" else "cpuinfo_min_freq"),
                         CpuFreqPath(i, "scaling_min_freq"))
  {
    var freq := FreqEffects(simulate, m.cpus, sw == On);
    var prefix := if m.uid != 0 then [RootWarning] else [];
    var first := SwitchEffects(Actions[..3], sw, simulate, services, m);
    assert SwitchEffects(Actions, sw, simulate, services, m) == first + freq;
    AppendAssoc(prefix, first, freq);
    var es := RunEffects(simulate, m, services, false, Some(sw));
    var front := prefix + first;
    assert es == front + freq;
    var source := if sw == On then "cpuinfo_max_freq" else "cpuinfo_min_freq";
    assert FreqSource(sw == On) == source;
    forall i | 0 <= i < m.cpus
      ensures es[|es| - m.cpus + i].cmd == CopyFile(CpuFreqPath(i, source), CpuFreqPath(i, "scaling_min_freq"))
    {
      assert (front + freq)[|front| + i] == freq[i];
      assert |es| - m.cpus + i == |front| + i;
    }
  }

  /** Only the real-time check can log the kernel error. */
  lemma OnlyCheckReportsKernel(simulate: bool, services: seq<string>, cpus: nat, on: bool)
    ensures NotRealTimeKernel !in CronEffects(simulate, services, on)
    ensures NotRealTimeKernel !in TlpEffects(simulate, services, on)
    ensures NotRealTimeKernel !in FreqEffects(simulate, cpus, on)
  {
  }

  /** One action logs the kernel error exactly when it is the real-time
      check switching on a kernel that does not look real-time. */
  lemma ActionKernelError(a: Action, sw: Switch, simulate: bool, services: seq<string>, m: Machine)
    ensures NotRealTimeKernel in ActionEffects(a, sw, simulate, services, m)
      <==> a == CheckForRealTimeKernel && sw == On && !IsRealTimeKernel(m)
  {
    OnlyCheckReportsKernel(simulate, services, m.cpus, sw == On);
  }

  /** Of the actions of `acts`, only the real-time check can log the kernel
      error, and it does so exactly when switching on a kernel that does not
      look real-time. */
  lemma {:induction false} KernelErrorFromCheckOnly(acts: seq<Action>, sw: Switch, simulate: bool, services: seq<string>, m: Machine)
    ensures NotRealTimeKernel in SwitchEffects(acts, sw, simulate, services, m)
      <==> CheckForRealTimeKernel in acts && sw == On && !IsRealTimeKernel(m)
  {
    if acts != [] {
      var last := |acts| - 1;
      var done := SwitchEffects(acts[..last], sw, simulate, services, m);
      var step := ActionEffects(acts[last], sw, simulate, services, m);
      KernelErrorFromCheckOnly(acts[..last], sw, simulate, services, m);
      ActionKernelError(acts[last], sw, simulate, services, m);
      assert SwitchEffects(acts, sw, simulate, services, m) == done + step;
      assert NotRealTimeKernel in done + step <==> NotRealTimeKernel in done || NotRealTimeKernel in step;
      assert acts == acts[..last] + [acts[last]];
    }
  }

  /** The error about the kernel is logged only when switching on, and then
      exactly when the kernel does not look real-time. */
  lemma KernelErrorOnlyWhenOn(simulate: bool, m: Machine, services: seq<string>, sw: Switch)
    ensures NotRealTimeKernel in RunEffects(simulate, m, services, false, Some(sw))
      <==> sw == On && !IsRealTimeKernel(m)
  {
    KernelErrorFromCheckOnly(Actions, sw, simulate, services, m);
    assert Actions[0] == CheckForRealTimeKernel;
  }

  // ---------------------------------------------------------------------------
  // the script
  // ---------------------------------------------------------------------------

  /** `FrequencyScaling`: the loop over `range(cpu_count())`. */
  method ScaleFrequencies(host: ActionBase, on: bool)
    modifies host
    ensures host.effects == old(host.effects) + FreqEffects(host.simulate, host.machine.cpus, on)
    ensures host.cache == old(host.cache) && host.listings == old(host.listings)
  {
    for cpu := 0 to host.machine.cpus
      invariant host.effects == old(host.effects) + FreqEffects(host.simulate, cpu, on)
      invariant host.cache == old(host.cache) && host.listings == old(host.listings)
    {
      host.ExecuteSafely(CopyFile(CpuFreqPath(cpu, FreqSource(on)), CpuFreqPath(cpu, "scaling_min_freq")));
    }
  }

  /** `Action().rt_settings_on()` or `Action().rt_settings_off()`. */
  method SwitchAction(host: ActionBase, a: Action, sw: Switch)
    requires host.Valid()
    modifies host
    ensures host.Valid()
    ensures host.effects == old(host.effects) + ActionEffects(a, sw, host.simulate, host.Services(), host.machine)
  {
    var on := sw == On;
    match a
    case CheckForRealTimeKernel =>
      if on {
        host.CheckForRealTimeKernel();
      }
    case Cron => host.Cron(on);
    case Tlp => host.Tlp(on);
    case FrequencyScaling => ScaleFrequencies(host, on);
  }

  /** Appending one more action's effects to a log of the first `i`
      actions' effects gives the log of the first `i + 1`. */
  lemma SwitchStep(prev: seq<Effect>, acts: seq<Action>, i: nat, sw: Switch, simulate: bool, services: seq<string>, m: Machine)
    requires i < |acts|
    ensures prev + SwitchEffects(acts[..i], sw, simulate, services, m) + ActionEffects(acts[i], sw, simulate, services, m)
      == prev + SwitchEffects(acts[..i + 1], sw, simulate, services, m)
  {
    assert acts[..i + 1][..i] == acts[..i];
    AppendAssoc(prev, SwitchEffects(acts[..i], sw, simulate, services, m), ActionEffects(acts[i], sw, simulate, services, m));
  }

  /** `--list`: one line per action class. */
  method ListActions(host: ActionBase)
    modifies host
    ensures host.effects == old(host.effects) + ListedNames(Actions)
    ensures host.cache == old(host.cache) && host.listings == old(host.listings)
  {
    for i := 0 to |Actions|
      invariant host.effects == old(host.effects) + ListedNames(Actions[..i])
      invariant host.cache == old(host.cache) && host.listings == old(host.listings)
    {
      assert Actions[..i + 1][..i] == Actions[..i];
      host.effects := host.effects + [Listed(ActionName(Actions[i]))];
    }
    assert Actions[..|Actions|] == Actions;
  }

  /** The loop over `actions` (here `acts`) calling `rt_settings_on` or
      `rt_settings_off`. */
  method SwitchAll(host: ActionBase, acts: seq<Action>, sw: Switch)
    requires host.Valid()
    modifies host
    ensures host.Valid()
    ensures host.effects == old(host.effects) + SwitchEffects(acts, sw, host.simulate, host.Services(), host.machine)
  {
    ghost var services := host.Services();
    for i := 0 to |acts|
      invariant host.Valid()
      invariant host.effects == old(host.effects) + SwitchEffects(acts[..i], sw, host.simulate, services, host.machine)
    {
      SwitchAction(host, acts[i], sw);
      SwitchStep(old(host.effects), acts, i, sw, host.simulate, services, host.machine);
    }
    assert acts[..|acts|] == acts;
  }

  /** The script body after argument parsing. */
  method Run(host: ActionBase, list: bool, sw: Option<Switch>)
    requires host.Valid()
    modifies host
    ensures host.Valid()
    ensures host.effects == old(host.effects) + RunEffects(host.simulate, host.machine, host.Services(), list, sw)
  {
    if list {
      ListActions(host);
      return;
    }
    ghost var prefix := if sw.Some? && host.machine.uid != 0 then [RootWarning] else [];
    if sw.Some? && host.machine.uid != 0 {
      host.effects := host.effects + [RootWarning];
    }
    assert host.effects == old(host.effects) + prefix;
    if sw.Some? {
      SwitchAll(host, Actions, sw.value);
      AppendAssoc(old(host.effects), prefix, SwitchEffects(Actions, sw.value, host.simulate, host.Services(), host.machine));
    } else {
      host.effects := host.effects + [Hint];
      AppendAssoc(old(host.effects), prefix, [Hint]);
    }
  }
}
