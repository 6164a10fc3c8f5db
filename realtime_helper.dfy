/**
 * real-time_helper.py: the older script with the same `ActionBase`, the
 * real-time check, `Cron` and `Tlp`, but without `--list` and without
 * frequency scaling. `on_or_off` is required and restricted to `on` and
 * `off` by the argument parser; the root warning comes before any action.
 */
module RealTimeHelper {

  import opened Common
  import opened RealTimeActions
  import Settings = RealTimeSettings

  datatype Action = CheckForRealTimeKernel | Cron | Tlp

  /** The action classes in the order they are appended to `actions`. */
  const Actions: seq<Action> := [CheckForRealTimeKernel, Cron, Tlp]

  // ---------------------------------------------------------------------------
  // dispatch, as specification functions
  // ---------------------------------------------------------------------------

  /** `activate` / `deactivate` of one action; the real-time check does
      nothing when deactivating. */
  function ActionEffects(a: Action, sw: Switch, simulate: bool, services: seq<string>, m: Machine): seq<Effect> {
    var on := sw == On;
    match a
    case CheckForRealTimeKernel => if on then CheckEffects(m) else []
    case Cron => CronEffects(simulate, services, on)
    case Tlp => TlpEffects(simulate, services, on)
  }

  /** The actions of `acts`, switched one after the other. */
  function SwitchEffects(acts: seq<Action>, sw: Switch, simulate: bool, services: seq<string>, m: Machine): seq<Effect> {
    if acts == [] then []
    else SwitchEffects(acts[..|acts| - 1], sw, simulate, services, m) + ActionEffects(acts[|acts| - 1], sw, simulate, services, m)
  }

  /** Everything the script does after parsing its arguments, when the unit
      listing yields `services`. */
  function RunEffects(simulate: bool, m: Machine, services: seq<string>, sw: Switch): seq<Effect> {
    (if m.uid != 0 then [RootWarning] else []) + SwitchEffects(Actions, sw, simulate, services, m)
  }

  // ---------------------------------------------------------------------------
  // properties
  // ---------------------------------------------------------------------------

  /** The same action of the newer script does the same. */
  function Newer(a: Action): Settings.Action {
    match a
    case CheckForRealTimeKernel => Settings.CheckForRealTimeKernel
    case Cron => Settings.Cron
    case Tlp => Settings.Tlp
  }

  lemma SameAsNewerAction(a: Action, sw: Switch, simulate: bool, services: seq<string>, m: Machine)
    ensures ActionEffects(a, sw, simulate, services, m) == Settings.ActionEffects(Newer(a), sw, simulate, services, m)
  {
  }

  /** The actions are switched in the order they are registered. */
  lemma SwitchInRegistrationOrder(sw: Switch, simulate: bool, services: seq<string>, m: Machine)
    ensures SwitchEffects(Actions, sw, simulate, services, m)
      == ActionEffects(CheckForRealTimeKernel, sw, simulate, services, m) + ActionEffects(Cron, sw, simulate, services, m)
         + ActionEffects(Tlp, sw, simulate, services, m)
  {
    var two := [CheckForRealTimeKernel, Cron];
    var one := [CheckForRealTimeKernel];
    assert Actions[..2] == two && two[..1] == one && one[..0] == [];
    assert SwitchEffects(one, sw, simulate, services, m) == ActionEffects(CheckForRealTimeKernel, sw, simulate, services, m);
    assert SwitchEffects(two, sw, simulate, services, m)
      == SwitchEffects(one, sw, simulate, services, m) + ActionEffects(Cron, sw, simulate, services, m);
  }

  /** The helper switches exactly as real-time_settings.py does, except that
      the newer script goes on to scale the CPU frequencies. */
  lemma NewerScriptAddsFrequencyScaling(simulate: bool, m: Machine, services: seq<string>, sw: Switch)
    ensures Settings.RunEffects(simulate, m, services, false, Some(sw))
      == RunEffects(simulate, m, services, sw) + Settings.FreqEffects(simulate, m.cpus, sw == On)
  {
    SameAsNewerAction(CheckForRealTimeKernel, sw, simulate, services, m);
    SameAsNewerAction(Cron, sw, simulate, services, m);
    SameAsNewerAction(Tlp, sw, simulate, services, m);
    SwitchInRegistrationOrder(sw, simulate, services, m);
    Settings.SwitchInRegistrationOrder(sw, simulate, services, m);
    var switched := SwitchEffects(Actions, sw, simulate, services, m);
    var freq := Settings.FreqEffects(simulate, m.cpus, sw == On);
    assert Settings.SwitchEffects(Settings.Actions, sw, simulate, services, m) == switched + freq;
    AppendAssoc(if m.uid != 0 then [RootWarning] else [], switched, freq);
  }

  /** With `--simulate`, nothing is ever executed. */
  lemma SimulateExecutesNothing(m: Machine, services: seq<string>, sw: Switch)
    ensures NoCall(RunEffects(true, m, services, sw))
  {
    NewerScriptAddsFrequencyScaling(true, m, services, sw);
    Settings.SimulateExecutesNothing(m, services, false, Some(sw));
    NoCallPrefix(RunEffects(true, m, services, sw), Settings.FreqEffects(true, m.cpus, sw == On));
  }

  /** A unit missing from the listing is never started or stopped. */
  lemma UnknownServiceUntouched(simulate: bool, m: Machine, services: seq<string>, sw: Switch, name: string)
    requires name !in services
    ensures LeavesUnit(RunEffects(simulate, m, services, sw), name)
  {
    NewerScriptAddsFrequencyScaling(simulate, m, services, sw);
    Settings.UnknownServiceUntouched(simulate, m, services, false, Some(sw), name);
    LeavesUnitPrefix(RunEffects(simulate, m, services, sw), Settings.FreqEffects(simulate, m.cpus, sw == On), name);
  }

  /** The error about the kernel is logged only when activating, and then
      exactly when the kernel does not look real-time. */
  lemma KernelErrorOnlyWhenOn(simulate: bool, m: Machine, services: seq<string>, sw: Switch)
    ensures NotRealTimeKernel in RunEffects(simulate, m, services, sw) <==> sw == On && !IsRealTimeKernel(m)
  {
    NewerScriptAddsFrequencyScaling(simulate, m, services, sw);
    Settings.KernelErrorOnlyWhenOn(simulate, m, services, sw);
    Settings.OnlyCheckReportsKernel(simulate, services, m.cpus, sw == On);
    var freq := Settings.FreqEffects(simulate, m.cpus, sw == On);
    assert NotRealTimeKernel in RunEffects(simulate, m, services, sw) + freq
      <==> NotRealTimeKernel in RunEffects(simulate, m, services, sw) || NotRealTimeKernel in freq;
  }

  // ---------------------------------------------------------------------------
  // the script
  // ---------------------------------------------------------------------------

  /** `Action().activate()` or `Action().deactivate()`. */
  method SwitchAction(host: ActionBase, a: Action, sw: Switch)
    requires host.Valid()
    modifies host
    ensures host.Valid()
    ensures host.effects == old(host.effects) + ActionEffects(a, sw, host.simulate, host.Services(), host.machine)
  {
    var on := sw == On;
    match a
    case CheckForRealTimeKernel =>
      if on {
        host.CheckForRealTimeKernel();
      }
    case Cron => host.Cron(on);
    case Tlp => host.Tlp(on);
  }

  /** One more action switched extends the effects by that action's. */
  lemma SwitchStep(acts: seq<Action>, i: nat, sw: Switch, simulate: bool, services: seq<string>, m: Machine)
    requires i < |acts|
    ensures SwitchEffects(acts[..i + 1], sw, simulate, services, m)
      == SwitchEffects(acts[..i], sw, simulate, services, m) + ActionEffects(acts[i], sw, simulate, services, m)
  {
    assert acts[..i + 1][..i] == acts[..i];
  }

  /** The loop over `actions` (here `acts`) calling `activate` or `deactivate`. */
  method SwitchAll(host: ActionBase, acts: seq<Action>, sw: Switch)
    requires host.Valid()
    modifies host
    ensures host.Valid()
    ensures host.effects == old(host.effects) + SwitchEffects(acts, sw, host.simulate, host.Services(), host.machine)
  {
    ghost var services := host.Services();
    for i := 0 to |acts|
      invariant host.Valid()
      invariant host.effects == old(host.effects) + SwitchEffects(acts[..i], sw, host.simulate, services, host.machine)
    {
      ghost var done := SwitchEffects(acts[..i], sw, host.simulate, services, host.machine);
      ghost var step := ActionEffects(acts[i], sw, host.simulate, services, host.machine);
      SwitchStep(acts, i, sw, host.simulate, services, host.machine);
      SwitchAction(host, acts[i], sw);
      assert host.effects == old(host.effects) + done + step;
      AppendAssoc(old(host.effects), done, step);
    }
    assert acts[..|acts|] == acts;
  }

  /** The script body after argument parsing: the root warning, then the
      loop over `actions`. */
  method Run(host: ActionBase, sw: Switch)
    requires host.Valid()
    modifies host
    ensures host.Valid()
    ensures host.effects == old(host.effects) + RunEffects(host.simulate, host.machine, host.Services(), sw)
  {
    ghost var prefix := if host.machine.uid != 0 then [RootWarning] else [];
    if host.machine.uid != 0 {
      host.effects := host.effects + [RootWarning];
    }
    assert host.effects == old(host.effects) + prefix;
    SwitchAll(host, Actions, sw);
    AppendAssoc(old(host.effects), prefix, SwitchEffects(Actions, sw, host.simulate, host.Services(), host.machine));
  }
}
