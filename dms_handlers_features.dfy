/** The keys of the update screens: choosing the dependencies to update,
  * typing the sudo password, and leaving the progress screen; and the
  * update plan built from the chosen dependencies. */
module DmsHandlersFeatures {
  import opened Common
  import opened DepsTypes
  import opened DmsDetector
  import opened DmsViewsFeatures
  import opened DmsModel

  /** Some dependency is toggled on. */
  method AnyToggled(toggles: map<string, bool>) returns (has: bool)
    ensures has <==> exists k :: k in toggles && toggles[k]
  {
    has := false;
    var rest := toggles.Keys;
    while rest != {}
      invariant rest <= toggles.Keys
      invariant forall k :: k in toggles.Keys - rest ==> !toggles[k]
      decreases |rest|
    {
      var k :| k in rest;
      if toggles[k] {
        return true;
      }
      rest := rest - {k};
    }
  }

  /** `updateUpdateView`. "ctrl+c"/"q" quit; Esc returns to the main menu;
    * "up"/"k" and "down"/"j" move the selection within the listed
    * dependencies; Space flips the toggle of the selected dependency;
    * Enter asks for the password when something is toggled and returns to
    * the main menu otherwise. The selection stays in range. */
  method UpdateUpdateView(m: Model, key: string) returns (r: Model, cmd: Cmd)
    ensures key == "ctrl+c" || key == "q" ==> r == m && cmd == Quit
    ensures key != "ctrl+c" && key != "q" ==> cmd == NoCmd
    ensures key == "esc" ==> r == m.(state := StateMainMenu)
    ensures key == "up" || key == "k" ==>
              r == m.(selectedUpdateDep := r.selectedUpdateDep)
              && r.selectedUpdateDep == if m.selectedUpdateDep > 0 then m.selectedUpdateDep - 1 else m.selectedUpdateDep
    ensures key == "down" || key == "j" ==>
              r == m.(selectedUpdateDep := r.selectedUpdateDep)
              && r.selectedUpdateDep == if m.selectedUpdateDep < |FilteredDeps(m.updateDeps)| - 1
                                        then m.selectedUpdateDep + 1 else m.selectedUpdateDep
    ensures key == " " ==>
              match DepAtVisualIndex(m.updateDeps, m.selectedUpdateDep)
              case Some(dep) =>
                r == m.(updateToggles := m.updateToggles[dep.Name := !Flag(m.updateToggles, dep.Name)])
              case None => r == m
    ensures key == "enter" ==>
              if exists k :: k in m.updateToggles && m.updateToggles[k] then
                r == m.(state := StateUpdatePassword, passwordInput := "", passwordError := "")
              else r == m.(state := StateMainMenu)
    ensures key !in {"ctrl+c", "q", "esc", "up", "k", "down", "j", " ", "enter"} ==> r == m
    ensures 0 <= m.selectedUpdateDep < |FilteredDeps(m.updateDeps)| ==>
              0 <= r.selectedUpdateDep < |FilteredDeps(r.updateDeps)|
  {
    if key == "ctrl+c" || key == "q" {
      return m, Quit;
    }
    cmd := NoCmd;
    if key == "esc" {
      r := m.(state := StateMainMenu);
    } else if key == "up" || key == "k" {
      r := m;
      if m.selectedUpdateDep > 0 {
        r := m.(selectedUpdateDep := m.selectedUpdateDep - 1);
      }
    } else if key == "down" || key == "j" {
      r := SelectNextDep(m);
    } else if key == " " {
      r := ToggleSelectedDep(m);
    } else if key == "enter" {
      r := ConfirmUpdates(m);
    } else {
      r := m;
    }
  }

  /** "down"/"j" on the update screen: the next listed dependency, if
    * there is one. */
  method SelectNextDep(m: Model) returns (r: Model)
    ensures r == m.(selectedUpdateDep := r.selectedUpdateDep)
    ensures r.selectedUpdateDep == if m.selectedUpdateDep < |FilteredDeps(m.updateDeps)| - 1
                                   then m.selectedUpdateDep + 1 else m.selectedUpdateDep
  {
    var filteredDeps := GetFilteredDeps(m.updateDeps);
    var maxIndex := |filteredDeps| - 1;
    r := m;
    if m.selectedUpdateDep < maxIndex {
      r := m.(selectedUpdateDep := m.selectedUpdateDep + 1);
    }
  }

  /** Space on the update screen: flip the toggle of the selected
    * dependency, when the selection names one. */
  method ToggleSelectedDep(m: Model) returns (r: Model)
    ensures match DepAtVisualIndex(m.updateDeps, m.selectedUpdateDep)
            case Some(dep) =>
              r == m.(updateToggles := m.updateToggles[dep.Name := !Flag(m.updateToggles, dep.Name)])
            case None => r == m
  {
    r := m;
    var dep := DepAtVisualIndex(m.updateDeps, m.selectedUpdateDep);
    if dep.Some? {
      var name := dep.value.Name;
      r := m.(updateToggles := m.updateToggles[name := !Flag(m.updateToggles, name)]);
    }
  }

  /** Enter on the update screen: ask for the password when something is
    * toggled, else go back to the main menu. */
  method ConfirmUpdates(m: Model) returns (r: Model)
    ensures if exists k :: k in m.updateToggles && m.updateToggles[k] then
              r == m.(state := StateUpdatePassword, passwordInput := "", passwordError := "")
            else r == m.(state := StateMainMenu)
  {
    var hasSelected := AnyToggled(m.updateToggles);
    if !hasSelected {
      return m.(state := StateMainMenu);
    }
    return m.(state := StateUpdatePassword, passwordInput := "", passwordError := "");
  }

  /** Every character is printable ASCII (codes 32 to 126). */
  predicate Printable(s: string)
  {
    forall i :: 0 <= i < |s| ==> 32 <= s[i] as int <= 126
  }

  /** A key that types one printable character. */
  predicate TypesChar(key: string)
  {
    |key| == 1 && 32 <= key[0] as int <= 126
  }

  /** `updatePasswordView`. "ctrl+c" quits; Esc goes back to the update
    * screen with the field cleared; Enter checks a non-empty password and
    * does nothing on an empty one; Backspace drops the last character if
    * there is one; a printable character is appended and any other key is
    * ignored. The field only ever holds printable characters. */
  function UpdatePasswordView(m: Model, key: string): (r: (Model, Cmd))
    ensures key == "ctrl+c" ==> r == (m, Quit)
    ensures key == "esc" ==> r == (m.(state := StateUpdate, passwordInput := "", passwordError := ""), NoCmd)
    ensures key == "enter" ==>
              r.0 == m && (m.passwordInput == "" <==> r.1 == NoCmd)
              && (m.passwordInput != "" ==> r.1 == ValidatePassword(m.passwordInput))
    ensures key == "backspace" ==>
              r.1 == NoCmd && r.0 == m.(passwordInput := r.0.passwordInput)
              && (m.passwordInput == "" ==> r.0.passwordInput == "")
              && (m.passwordInput != "" ==> r.0.passwordInput + [m.passwordInput[|m.passwordInput| - 1]] == m.passwordInput)
    ensures key !in {"ctrl+c", "esc", "enter", "backspace"} ==>
              r.1 == NoCmd && r.0 == m.(passwordInput := r.0.passwordInput)
              && r.0.passwordInput == if TypesChar(key) then m.passwordInput + key else m.passwordInput
    ensures Printable(m.passwordInput) ==> Printable(r.0.passwordInput)
  {
    if key == "ctrl+c" then (m, Quit)
    else if key == "esc" then (m.(state := StateUpdate, passwordInput := "", passwordError := ""), NoCmd)
    else if key == "enter" then
      if m.passwordInput == "" then (m, NoCmd) else (m, ValidatePassword(m.passwordInput))
    else if key == "backspace" then
      if |m.passwordInput| > 0 then (m.(passwordInput := m.passwordInput[..|m.passwordInput| - 1]), NoCmd)
      else (m, NoCmd)
    else if TypesChar(key) then (m.(passwordInput := m.passwordInput + key), NoCmd)
    else (m, NoCmd)
  }

  /** `updateProgressView`. "ctrl+c"/"q" quit; Esc returns to the main menu
    * with the progress and log cleared, but only once the update is
    * complete; any other key is ignored. */
  function UpdateProgressView(m: Model, key: string): (r: (Model, Cmd))
    ensures key == "ctrl+c" || key == "q" ==> r == (m, Quit)
    ensures key == "esc" && m.updateProgress.complete ==>
              r == (m.(state := StateMainMenu, updateProgress := NoProgress, updateLogs := []), NoCmd)
    ensures r.0 != m ==> key == "esc" && m.updateProgress.complete
    ensures r.1 == Quit || r.1 == NoCmd
  {
    if key == "ctrl+c" || key == "q" then (m, Quit)
    else if key == "esc" && m.updateProgress.complete then
      (m.(state := StateMainMenu, updateProgress := NoProgress, updateLogs := []), NoCmd)
    else (m, NoCmd)
  }

  /** The installer's form of a listed dependency. */
  function DependencyOf(d: DependencyInfo): Dependency
  {
    Dependency(d.Name, d.Status, "", d.Description, d.Required, VariantStable, false)
  }

  /** The listed dependencies whose toggle is on, in the installer's form
    * and in their order. */
  function ToggledDeps(deps: seq<DependencyInfo>, toggles: map<string, bool>): seq<Dependency>
  {
    if |deps| == 0 then []
    else
      var last := deps[|deps| - 1];
      ToggledDeps(deps[..|deps| - 1], toggles) + (if Flag(toggles, last.Name) then [DependencyOf(last)] else [])
  }

  /** A dependency is updated exactly when it is listed and toggled on. */
  lemma {:induction false} ToggledDepsMembers(deps: seq<DependencyInfo>, toggles: map<string, bool>, d: DependencyInfo)
    ensures DependencyOf(d) in ToggledDeps(deps, toggles) <==>
              Flag(toggles, d.Name) && exists e :: e in deps && DependencyOf(e) == DependencyOf(d)
  {
    if |deps| > 0 {
      var init, last := deps[..|deps| - 1], deps[|deps| - 1];
      assert deps == init + [last];
      ToggledDepsMembers(init, toggles, d);
      if exists e :: e in deps && DependencyOf(e) == DependencyOf(d) {
        var e :| e in deps && DependencyOf(e) == DependencyOf(d);
        assert e.Name == d.Name;
        if e != last {
          assert e in init;
        }
      }
    }
  }

  /** What `performUpdate` sets off: nothing when no listed dependency is
    * toggled, otherwise an installation of the toggled dependencies. */
  datatype UpdatePlan =
    | NothingToUpdate
    | RunInstall(deps: seq<Dependency>, wm: WindowManager, sudoPassword: string, reinstallFlags: map<string, bool>)

  /** `performUpdate`, up to starting the installer: the toggled listed
    * dependencies are installed for Niri when it is installed and for
    * Hyprland otherwise, with a reinstall flag for exactly the toggled
    * names. */
  method PerformUpdate(m: Model) returns (plan: UpdatePlan)
    ensures plan.NothingToUpdate? <==> ToggledDeps(m.updateDeps, m.updateToggles) == []
    ensures plan.RunInstall? ==>
              plan.deps == ToggledDeps(m.updateDeps, m.updateToggles)
              && plan.wm == (if m.niriInstalled then WindowManagerNiri else WindowManagerHyprland)
              && plan.sudoPassword == m.sudoPassword
              && (forall k :: k in plan.reinstallFlags <==> Flag(m.updateToggles, k))
              && (forall k :: k in plan.reinstallFlags ==> plan.reinstallFlags[k])
  {
    var depsToUpdate: seq<Dependency> := [];
    var i := 0;
    while i < |m.updateDeps|
      invariant 0 <= i <= |m.updateDeps|
      invariant depsToUpdate == ToggledDeps(m.updateDeps[..i], m.updateToggles)
    {
      var depInfo := m.updateDeps[i];
      assert m.updateDeps[..i + 1][..i] == m.updateDeps[..i];
      if Flag(m.updateToggles, depInfo.Name) {
        depsToUpdate := depsToUpdate + [DependencyOf(depInfo)];
      }
      i := i + 1;
    }
    assert m.updateDeps[..i] == m.updateDeps;
    if |depsToUpdate| == 0 {
      return NothingToUpdate;
    }
    var wm := WindowManagerHyprland;
    if m.niriInstalled {
      wm := WindowManagerNiri;
    }
    var reinstallFlags: map<string, bool> := map[];
    var rest := m.updateToggles.Keys;
    while rest != {}
      invariant rest <= m.updateToggles.Keys
      invariant forall k :: k in reinstallFlags <==> k in m.updateToggles.Keys - rest && m.updateToggles[k]
      invariant forall k :: k in reinstallFlags ==> reinstallFlags[k]
      decreases |rest|
    {
      var name :| name in rest;
      if m.updateToggles[name] {
        reinstallFlags := reinstallFlags[name := true];
      }
      rest := rest - {name};
    }
    return RunInstall(depsToUpdate, wm, m.sudoPassword, reinstallFlags);
  }
}
