/** The configuration-confirmation screen of the installer wizard: which
  * existing configuration files are replaced, and how the selection moves
  * between them. */
module TuiViewsConfig {
  import opened Common
  import opened TuiModel

  /** The replace flags after every existing configuration is marked for
    * replacement; the configurations are visited in order. */
  function MarkExisting(flags: map<string, bool>, configs: seq<ExistingConfigInfo>): (r: map<string, bool>)
    ensures forall c :: c in configs && c.Exists ==> c.ConfigType in r && r[c.ConfigType]
    ensures forall k :: k in r <==> k in flags || exists c :: c in configs && c.Exists && c.ConfigType == k
    ensures forall k :: k in flags && (forall c :: c in configs && c.Exists ==> c.ConfigType != k) ==> r[k] == flags[k]
  {
    if |configs| == 0 then flags
    else
      var init, last := configs[..|configs| - 1], configs[|configs| - 1];
      assert configs == init + [last];
      var before := MarkExisting(flags, init);
      if last.Exists then before[last.ConfigType := true] else before
  }

  /** The index of the first existing configuration, if any. */
  function FirstExisting(configs: seq<ExistingConfigInfo>): (r: Option<nat>)
    ensures r.Some? ==> r.value < |configs| && configs[r.value].Exists
                        && forall j :: 0 <= j < r.value ==> !configs[j].Exists
    ensures r.None? ==> forall j :: 0 <= j < |configs| ==> !configs[j].Exists
  {
    if |configs| == 0 then None
    else
      var init, last := configs[..|configs| - 1], configs[|configs| - 1];
      var before := FirstExisting(init);
      if before.Some? then before else if last.Exists then Some(|configs| - 1) else None
  }

  /** Marking one more configuration of a prefix. */
  lemma MarkExistingStep(flags: map<string, bool>, configs: seq<ExistingConfigInfo>, n: nat)
    requires n < |configs|
    ensures MarkExisting(flags, configs[..n + 1])
            == if configs[n].Exists then MarkExisting(flags, configs[..n])[configs[n].ConfigType := true]
               else MarkExisting(flags, configs[..n])
  {
    var cs := configs[..n + 1];
    assert cs[..|cs| - 1] == configs[..n] && cs[|cs| - 1] == configs[n];
  }

  /** Looking for the first existing configuration in one more of a
    * prefix. */
  lemma FirstExistingStep(configs: seq<ExistingConfigInfo>, n: nat)
    requires n < |configs|
    ensures FirstExisting(configs[..n + 1])
            == if FirstExisting(configs[..n]).Some? then FirstExisting(configs[..n])
               else if configs[n].Exists then Some(n) else None
  {
    var cs := configs[..n + 1];
    assert cs[..|cs| - 1] == configs[..n] && cs[|cs| - 1] == configs[n];
  }

  /** The index of the last existing configuration among the first `n`,
    * if any. */
  function LastExistingBefore(configs: seq<ExistingConfigInfo>, n: nat): (r: Option<nat>)
    requires n <= |configs|
    ensures r.Some? ==> r.value < n && configs[r.value].Exists
                        && forall j :: r.value < j < n ==> !configs[j].Exists
    ensures r.None? ==> forall j :: 0 <= j < n ==> !configs[j].Exists
  {
    if n == 0 then None
    else if configs[n - 1].Exists then Some(n - 1)
    else LastExistingBefore(configs, n - 1)
  }

  /** The index of the first existing configuration from `i` on, if any. */
  function FirstExistingFrom(configs: seq<ExistingConfigInfo>, i: nat): (r: Option<nat>)
    requires i <= |configs|
    decreases |configs| - i
    ensures r.Some? ==> i <= r.value < |configs| && configs[r.value].Exists
                        && forall j :: i <= j < r.value ==> !configs[j].Exists
    ensures r.None? ==> forall j :: i <= j < |configs| ==> !configs[j].Exists
  {
    if i == |configs| then None
    else if configs[i].Exists then Some(i)
    else FirstExistingFrom(configs, i + 1)
  }

  /** Where "up" leads: the nearest existing configuration above the
    * selection, or the selection itself when there is none. */
  function Above(configs: seq<ExistingConfigInfo>, selected: int): int
    requires selected <= |configs|
  {
    if selected <= 0 then selected
    else match LastExistingBefore(configs, selected)
      case Some(j) => j
      case None => selected
  }

  /** Where "down" leads: the nearest existing configuration below the
    * selection, or the selection itself when there is none. */
  function Below(configs: seq<ExistingConfigInfo>, selected: int): int
    requires -1 <= selected
  {
    if selected + 1 > |configs| then selected
    else match FirstExistingFrom(configs, selected + 1)
      case Some(j) => j
      case None => selected
  }

  /** "up" moves to an existing configuration above exactly when there is
    * one, and then to the nearest; otherwise the selection stays. */
  lemma AboveIsNearest(configs: seq<ExistingConfigInfo>, selected: int)
    requires selected <= |configs|
    ensures (exists j :: 0 <= j < selected && configs[j].Exists) ==>
              0 <= Above(configs, selected) < selected && configs[Above(configs, selected)].Exists
              && forall j :: Above(configs, selected) < j < selected ==> !configs[j].Exists
    ensures !(exists j :: 0 <= j < selected && configs[j].Exists) ==> Above(configs, selected) == selected
  {
  }

  /** "down" moves to an existing configuration below exactly when there
    * is one, and then to the nearest; otherwise the selection stays. */
  lemma BelowIsNearest(configs: seq<ExistingConfigInfo>, selected: int)
    requires -1 <= selected
    ensures (exists j :: selected < j < |configs| && configs[j].Exists) ==>
              selected < Below(configs, selected) < |configs| && configs[Below(configs, selected)].Exists
              && forall j :: selected < j < Below(configs, selected) ==> !configs[j].Exists
    ensures !(exists j :: selected < j < |configs| && configs[j].Exists) ==> Below(configs, selected) == selected
  {
  }

  /** "up": the loop looking for the nearest existing configuration above
    * the selection. */
  method PrevExisting(configs: seq<ExistingConfigInfo>, selected: int) returns (r: int)
    requires selected <= |configs|
    ensures r == Above(configs, selected)
    ensures (exists j :: 0 <= j < selected && configs[j].Exists) ==>
              0 <= r < selected && configs[r].Exists && forall j :: r < j < selected ==> !configs[j].Exists
    ensures !(exists j :: 0 <= j < selected && configs[j].Exists) ==> r == selected
  {
    r := selected;
    if selected > 0 {
      var i := selected - 1;
      while i >= 0
        invariant -1 <= i < selected
        invariant forall j :: i < j < selected ==> !configs[j].Exists
        decreases i
      {
        if configs[i].Exists {
          return i;
        }
        i := i - 1;
      }
    }
  }

  /** "down": the loop looking for the nearest existing configuration
    * below the selection. */
  method NextExisting(configs: seq<ExistingConfigInfo>, selected: int) returns (r: int)
    requires -1 <= selected
    ensures r == Below(configs, selected)
    ensures (exists j :: selected < j < |configs| && configs[j].Exists) ==>
              selected < r < |configs| && configs[r].Exists && forall j :: selected < j < r ==> !configs[j].Exists
    ensures !(exists j :: selected < j < |configs| && configs[j].Exists) ==> r == selected
  {
    r := selected;
    if selected < |configs| - 1 {
      var i := selected + 1;
      while i < |configs|
        invariant selected < i <= |configs|
        invariant forall j :: selected < j < i ==> !configs[j].Exists
      {
        if configs[i].Exists {
          return i;
        }
        i := i + 1;
      }
    }
  }

  /** The selection is on an existing configuration. */
  predicate OnExisting(configs: seq<ExistingConfigInfo>, selected: int)
  {
    0 <= selected < |configs| && configs[selected].Exists
  }

  /** The first loop of the configuration check: every existing
    * configuration is marked for replacement, and the first of them is
    * selected. */
  method MarkAndSelect(flags: map<string, bool>, selected: int, configs: seq<ExistingConfigInfo>)
    returns (newFlags: map<string, bool>, newSelected: int)
    ensures newFlags == MarkExisting(flags, configs)
    ensures newSelected == if FirstExisting(configs).Some? then FirstExisting(configs).value else selected
  {
    newFlags, newSelected := flags, selected;
    var firstExistingSet := false;
    var i := 0;
    while i < |configs|
      invariant 0 <= i <= |configs|
      invariant newFlags == MarkExisting(flags, configs[..i])
      invariant firstExistingSet <==> FirstExisting(configs[..i]).Some?
      invariant newSelected == if firstExistingSet then FirstExisting(configs[..i]).value else selected
    {
      MarkExistingStep(flags, configs, i);
      FirstExistingStep(configs, i);
      if configs[i].Exists {
        newFlags := newFlags[configs[i].ConfigType := true];
        if !firstExistingSet {
          newSelected := i;
          firstExistingSet := true;
        }
      }
      i := i + 1;
    }
    assert configs[..i] == configs;
  }

  /** The second loop of the configuration check: whether any
    * configuration exists. */
  method AnyExisting(configs: seq<ExistingConfigInfo>) returns (hasExisting: bool)
    ensures hasExisting <==> FirstExisting(configs).Some?
  {
    hasExisting := false;
    var j := 0;
    while j < |configs|
      invariant 0 <= j <= |configs|
      invariant forall k :: 0 <= k < j ==> !configs[k].Exists
    {
      if configs[j].Exists {
        hasExisting := true;
        break;
      }
      j := j + 1;
    }
  }

  /** A successful configuration check: the configurations are stored,
    * every existing one is marked for replacement and the first of them
    * selected; with none the screen moves straight on to deploying. */
  method ApplyConfigCheck(m: Model, configs: seq<ExistingConfigInfo>) returns (cmd: Cmd)
    modifies m`existingConfigs, m`replaceConfigs, m`selectedConfig, m`state
    ensures m.existingConfigs == configs
    ensures m.replaceConfigs == MarkExisting(old(m.replaceConfigs), configs)
    ensures FirstExisting(configs).Some? ==>
              m.selectedConfig == FirstExisting(configs).value && m.state == old(m.state) && cmd == NoCmd
    ensures FirstExisting(configs).None? ==>
              m.selectedConfig == old(m.selectedConfig) && m.state == StateDeployingConfigs
              && cmd == DeployConfigurations
  {
    m.existingConfigs := configs;
    var flags, selected := MarkAndSelect(m.replaceConfigs, m.selectedConfig, configs);
    m.replaceConfigs, m.selectedConfig := flags, selected;
    var hasExisting := AnyExisting(configs);
    if !hasExisting {
      m.state := StateDeployingConfigs;
      return DeployConfigurations;
    }
    return NoCmd;
  }

  /** Where the selection is after a key: "up" and "down" move it, any
    * other key leaves it. */
  function SelectedAfterKey(configs: seq<ExistingConfigInfo>, selected: int, key: string): int
    requires 0 <= selected <= |configs|
  {
    if key == "up" then Above(configs, selected)
    else if key == "down" then Below(configs, selected)
    else selected
  }

  /** The replace flags after a key: Space on an existing entry flips its
    * flag (a missing flag reads false), any other key leaves them. */
  function FlagsAfterKey(configs: seq<ExistingConfigInfo>, selected: int, flags: map<string, bool>, key: string): map<string, bool>
    requires 0 <= selected
  {
    if key == " " && selected < |configs| && configs[selected].Exists then
      flags[configs[selected].ConfigType := !Flag(flags, configs[selected].ConfigType)]
    else flags
  }

  /** A key on the confirmation screen: "up"/"down" move to the nearest
    * existing entry or stay put, Space flips the replace flag of the
    * selected entry if it exists, Enter moves on to deploying. The
    * selection stays on an existing entry. */
  method HandleConfigKey(m: Model, key: string) returns (cmd: Cmd)
    requires 0 <= m.selectedConfig <= |m.existingConfigs|
    modifies m`replaceConfigs, m`selectedConfig, m`state
    ensures m.selectedConfig == SelectedAfterKey(m.existingConfigs, old(m.selectedConfig), key)
    ensures m.replaceConfigs == FlagsAfterKey(m.existingConfigs, old(m.selectedConfig), old(m.replaceConfigs), key)
    ensures key == "enter" <==> cmd == DeployConfigurations
    ensures key == "enter" ==> m.state == StateDeployingConfigs
    ensures key != "enter" ==> m.state == old(m.state) && cmd == NoCmd
    ensures key != " " ==> m.replaceConfigs == old(m.replaceConfigs)
    ensures key != "up" && key != "down" ==> m.selectedConfig == old(m.selectedConfig)
    ensures OnExisting(m.existingConfigs, old(m.selectedConfig)) ==> OnExisting(m.existingConfigs, m.selectedConfig)
    ensures key == " " ==>
              var configs, sel, flags := m.existingConfigs, old(m.selectedConfig), old(m.replaceConfigs);
              if sel < |configs| && configs[sel].Exists then
                m.replaceConfigs == flags[configs[sel].ConfigType := !Flag(flags, configs[sel].ConfigType)]
              else m.replaceConfigs == flags
  {
    if key == "up" {
      if m.selectedConfig > 0 {
        m.selectedConfig := PrevExisting(m.existingConfigs, m.selectedConfig);
      }
    } else if key == "down" {
      if m.selectedConfig < |m.existingConfigs| - 1 {
        m.selectedConfig := NextExisting(m.existingConfigs, m.selectedConfig);
      }
    } else if key == " " {
      if |m.existingConfigs| > 0 && m.selectedConfig < |m.existingConfigs| {
        var configType := m.existingConfigs[m.selectedConfig].ConfigType;
        if m.existingConfigs[m.selectedConfig].Exists {
          m.replaceConfigs := m.replaceConfigs[configType := !Flag(m.replaceConfigs, configType)];
        }
      }
    } else if key == "enter" {
      m.state := StateDeployingConfigs;
      return DeployConfigurations;
    }
    return NoCmd;
  }

  /** `updateConfigConfirmationState`: a failed check moves to the error
    * screen; a successful one and the keys are handled as above; any other
    * message is ignored. */
  method UpdateConfigConfirmationState(m: Model, msg: Msg) returns (cmd: Cmd)
    requires msg.KeyMsg? ==> 0 <= m.selectedConfig <= |m.existingConfigs|
    modifies m`err, m`existingConfigs, m`replaceConfigs, m`selectedConfig, m`state
    ensures msg.ConfigCheckResult? && msg.error.Some? ==>
              m.err == msg.error && m.state == StateError && cmd == NoCmd
              && m.existingConfigs == old(m.existingConfigs) && m.replaceConfigs == old(m.replaceConfigs)
              && m.selectedConfig == old(m.selectedConfig)
    ensures msg.ConfigCheckResult? && msg.error.None? ==>
              m.err == old(m.err) && m.existingConfigs == msg.configs
              && m.replaceConfigs == MarkExisting(old(m.replaceConfigs), msg.configs)
              && (FirstExisting(msg.configs).Some? ==>
                    m.selectedConfig == FirstExisting(msg.configs).value && m.state == old(m.state) && cmd == NoCmd)
              && (FirstExisting(msg.configs).None? ==>
                    m.selectedConfig == old(m.selectedConfig) && m.state == StateDeployingConfigs
                    && cmd == DeployConfigurations)
    ensures msg.KeyMsg? ==>
              m.err == old(m.err) && m.existingConfigs == old(m.existingConfigs)
              && m.selectedConfig == SelectedAfterKey(m.existingConfigs, old(m.selectedConfig), msg.key)
              && m.replaceConfigs == FlagsAfterKey(m.existingConfigs, old(m.selectedConfig), old(m.replaceConfigs), msg.key)
              && m.state == (if msg.key == "enter" then StateDeployingConfigs else old(m.state))
              && (msg.key == "enter" <==> cmd == DeployConfigurations)
              && (OnExisting(old(m.existingConfigs), old(m.selectedConfig)) ==>
                    OnExisting(m.existingConfigs, m.selectedConfig))
    ensures msg.PackageProgressMsg? || msg.OtherMsg? ==> cmd == NoCmd && unchanged(m)
  {
    if msg.ConfigCheckResult? {
      if msg.error.Some? {
        m.err := msg.error;
        m.state := StateError;
        return NoCmd;
      }
      cmd := ApplyConfigCheck(m, msg.configs);
      return;
    }
    if msg.KeyMsg? {
      cmd := HandleConfigKey(m, msg.key);
      return;
    }
    return NoCmd;
  }

  /** Marking the existing configurations twice is marking them once. */
  lemma {:induction false} MarkExistingIdempotent(flags: map<string, bool>, configs: seq<ExistingConfigInfo>)
    ensures MarkExisting(MarkExisting(flags, configs), configs) == MarkExisting(flags, configs)
  {
    var once := MarkExisting(flags, configs);
    var twice := MarkExisting(once, configs);
    forall k | k in twice ensures k in once && twice[k] == once[k] {
      if exists c :: c in configs && c.Exists && c.ConfigType == k {
        var c :| c in configs && c.Exists && c.ConfigType == k;
        assert twice[c.ConfigType] && once[c.ConfigType];
      }
    }
    assert twice.Keys == once.Keys;
  }
}
