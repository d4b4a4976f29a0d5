/** The Arch Linux back-end's package planning: which package each
  * dependency maps to, how the pending dependencies are split between
  * pacman, the AUR and source builds, and in which order the AUR packages
  * are built. */
module DistrosArch {
  import opened Common
  import opened DepsTypes
  import opened DistrosInterface

  // ---------------------------------------------------------------------
  // Package mappings

  /** Build-time switches of the installer; both are off. */
  const ForceQuickshellGit: bool := false
  const ForceDMSGit: bool := false

  /** The variant chosen for a dependency; Go's map lookup gives the zero
    * value, the stable variant, for a name that is not there. */
  function VariantFor(variants: map<string, PackageVariant>, name: string): (v: PackageVariant)
  {
    if name in variants then variants[name] else VariantStable
  }

  function QuickshellMapping(variant: PackageVariant): (m: PackageMapping)
  {
    if ForceQuickshellGit || variant == VariantGit then Mapping("quickshell-git", RepoTypeAUR)
    else Mapping("quickshell", RepoTypeSystem)
  }

  function HyprlandMapping(variant: PackageVariant): (m: PackageMapping)
  {
    if variant == VariantGit then Mapping("hyprland-git", RepoTypeAUR) else Mapping("hyprland", RepoTypeSystem)
  }

  function NiriMapping(variant: PackageVariant): (m: PackageMapping)
  {
    if variant == VariantGit then Mapping("niri-git", RepoTypeAUR) else Mapping("niri", RepoTypeSystem)
  }

  /** matugen: the AUR git build on arm64 or when asked for. */
  function MatugenMapping(variant: PackageVariant, arm64: bool): (m: PackageMapping)
  {
    if arm64 then Mapping("matugen-git", RepoTypeAUR)
    else if variant == VariantGit then Mapping("matugen-git", RepoTypeAUR)
    else Mapping("matugen", RepoTypeSystem)
  }

  /** The shell itself: the git build when asked for or already installed,
    * otherwise the binary build, both from the AUR. `gitInstalled` and
    * `binInstalled` are the answers of `pacman -Q`. */
  function DMSMapping(variant: PackageVariant, gitInstalled: bool, binInstalled: bool): (m: PackageMapping)
  {
    if ForceDMSGit || variant == VariantGit then Mapping("dms-shell-git", RepoTypeAUR)
    else if gitInstalled then Mapping("dms-shell-git", RepoTypeAUR)
    else if binInstalled then Mapping("dms-shell-bin", RepoTypeAUR)
    else Mapping("dms-shell-bin", RepoTypeAUR)
  }

  const DmsName: string := "dms (DankMaterialShell)"

  /** The packages every window manager needs. */
  function CommonMappings(variants: map<string, PackageVariant>, arm64: bool, gitInstalled: bool, binInstalled: bool)
    : (m: map<string, PackageMapping>)
  {
    map[
      DmsName := DMSMapping(VariantFor(variants, DmsName), gitInstalled, binInstalled),
      "git" := Mapping("git", RepoTypeSystem),
      "quickshell" := QuickshellMapping(VariantFor(variants, "quickshell")),
      "matugen" := MatugenMapping(VariantFor(variants, "matugen"), arm64),
      "dgop" := Mapping("dgop", RepoTypeSystem),
      "ghostty" := Mapping("ghostty", RepoTypeSystem),
      "kitty" := Mapping("kitty", RepoTypeSystem),
      "alacritty" := Mapping("alacritty", RepoTypeSystem),
      "cliphist" := Mapping("cliphist", RepoTypeSystem),
      "wl-clipboard" := Mapping("wl-clipboard", RepoTypeSystem),
      "xdg-desktop-portal-gtk" := Mapping("xdg-desktop-portal-gtk", RepoTypeSystem),
      "mate-polkit" := Mapping("mate-polkit", RepoTypeSystem),
      "accountsservice" := Mapping("accountsservice", RepoTypeSystem),
      "hyprpicker" := Mapping("hyprpicker", RepoTypeSystem)]
  }

  /** `GetPackageMappingWithVariants`: the common packages and those of the
    * window manager. */
  function PackageMappingWithVariants(wm: WindowManager, variants: map<string, PackageVariant>,
                                      arm64: bool, gitInstalled: bool, binInstalled: bool)
    : (m: map<string, PackageMapping>)
  {
    var base := CommonMappings(variants, arm64, gitInstalled, binInstalled);
    match wm
    case WindowManagerHyprland =>
      base["hyprland" := HyprlandMapping(VariantFor(variants, "hyprland"))]
          ["grim" := Mapping("grim", RepoTypeSystem)]
          ["slurp" := Mapping("slurp", RepoTypeSystem)]
          ["hyprctl" := HyprlandMapping(VariantFor(variants, "hyprland"))]
          ["grimblast" := PackageMapping("grimblast", RepoTypeManual, "", "installGrimblast", "", "")]
          ["jq" := Mapping("jq", RepoTypeSystem)]
    case WindowManagerNiri =>
      base["niri" := NiriMapping(VariantFor(variants, "niri"))]
          ["xwayland-satellite" := Mapping("xwayland-satellite", RepoTypeSystem)]
  }

  /** The common table has no compositor entry. */
  lemma CommonLacksCompositors(variants: map<string, PackageVariant>, arm64: bool, gitInstalled: bool, binInstalled: bool)
    ensures var base := CommonMappings(variants, arm64, gitInstalled, binInstalled);
            "hyprland" !in base && "hyprctl" !in base && "niri" !in base
  {
    var base := CommonMappings(variants, arm64, gitInstalled, binInstalled);
    assert "hyprland" !in base;
    assert "hyprctl" !in base;
  }

  /** With Hyprland, the git variant selects "hyprland-git" from the AUR
    * and the stable one the repository package; hyprctl follows that
    * choice, and Niri's packages are absent. */
  lemma HyprlandVariants(variants: map<string, PackageVariant>, arm64: bool, gitInstalled: bool, binInstalled: bool)
    ensures var m := PackageMappingWithVariants(WindowManagerHyprland, variants, arm64, gitInstalled, binInstalled);
            "hyprland" in m && "hyprctl" in m && m["hyprctl"] == m["hyprland"] && "niri" !in m
            && (m["hyprland"] == Mapping("hyprland-git", RepoTypeAUR) <==> VariantFor(variants, "hyprland") == VariantGit)
            && (m["hyprland"] == Mapping("hyprland", RepoTypeSystem) <==> VariantFor(variants, "hyprland") == VariantStable)
  {
    CommonLacksCompositors(variants, arm64, gitInstalled, binInstalled);
  }

  /** With Niri, the git variant selects "niri-git" from the AUR and the
    * stable one the repository package, and Hyprland's packages are
    * absent. */
  lemma NiriVariants(variants: map<string, PackageVariant>, arm64: bool, gitInstalled: bool, binInstalled: bool)
    ensures var m := PackageMappingWithVariants(WindowManagerNiri, variants, arm64, gitInstalled, binInstalled);
            "niri" in m && "hyprland" !in m && "hyprctl" !in m
            && (m["niri"] == Mapping("niri-git", RepoTypeAUR) <==> VariantFor(variants, "niri") == VariantGit)
            && (m["niri"] == Mapping("niri", RepoTypeSystem) <==> VariantFor(variants, "niri") == VariantStable)
  {
    CommonLacksCompositors(variants, arm64, gitInstalled, binInstalled);
  }

  /** The shell package: the git build exactly when asked for or already
    * installed, the binary build otherwise; always from the AUR. */
  lemma DMSChoice(variant: PackageVariant, gitInstalled: bool, binInstalled: bool)
    ensures var m := DMSMapping(variant, gitInstalled, binInstalled);
            m.Repository == RepoTypeAUR
            && (m.Name == "dms-shell-git" <==> variant == VariantGit || gitInstalled)
            && (m.Name == "dms-shell-bin" <==> !(variant == VariantGit || gitInstalled))
  {
  }

  /** matugen comes from the AUR git build exactly on arm64 or when the git
    * variant is asked for. */
  lemma MatugenChoice(variant: PackageVariant, arm64: bool)
    ensures var m := MatugenMapping(variant, arm64);
            (m == Mapping("matugen-git", RepoTypeAUR) <==> arm64 || variant == VariantGit)
            && (m == Mapping("matugen", RepoTypeSystem) <==> !arm64 && variant != VariantGit)
  {
  }

  /** A repository Arch packages can come from. */
  predicate ArchRepository(m: PackageMapping)
  {
    m.Repository == RepoTypeSystem || m.Repository == RepoTypeAUR || m.Repository == RepoTypeManual
  }

  lemma CommonRepositories(variants: map<string, PackageVariant>, arm64: bool, gitInstalled: bool, binInstalled: bool)
    ensures var base := CommonMappings(variants, arm64, gitInstalled, binInstalled);
            forall name :: name in base ==> ArchRepository(base[name])
  {
    var base := CommonMappings(variants, arm64, gitInstalled, binInstalled);
    forall name | name in base ensures ArchRepository(base[name]) {
    }
  }

  /** Every Arch mapping is a repository package, an AUR package or a
    * source build. */
  lemma ArchRepositories(wm: WindowManager, variants: map<string, PackageVariant>,
                         arm64: bool, gitInstalled: bool, binInstalled: bool)
    ensures var m := PackageMappingWithVariants(wm, variants, arm64, gitInstalled, binInstalled);
            forall name :: name in m ==> ArchRepository(m[name])
  {
    CommonRepositories(variants, arm64, gitInstalled, binInstalled);
  }

  // ---------------------------------------------------------------------
  // categorizePackages

  /** The variant of each dependency by name; a later entry with the same
    * name replaces an earlier one. */
  function VariantMap(ds: seq<Dependency>): (m: map<string, PackageVariant>)
    ensures forall d :: d in ds ==> d.Name in m
  {
    if |ds| == 0 then map[]
    else VariantMap(ds[..|ds| - 1])[ds[|ds| - 1].Name := ds[|ds| - 1].Variant]
  }

  /** An installed dependency is left alone unless flagged for reinstall;
    * a name missing from the flags is not flagged. */
  predicate Skipped(d: Dependency, reinstallFlags: map<string, bool>)
  {
    d.Status == StatusInstalled && !(d.Name in reinstallFlags && reinstallFlags[d.Name])
  }

  /** The three lists after the dependencies `ds`: system packages, AUR
    * packages and source builds. */
  datatype Plan = Plan(system: seq<string>, aur: seq<string>, manual: seq<string>)

  /** The plan after one more dependency: nothing for a skipped one; its
    * dependency name as a source build when it has no mapping or maps to
    * one; the mapped package name in the system or AUR list otherwise. */
  function AddDependency(p: Plan, d: Dependency, pm: map<string, PackageMapping>, reinstallFlags: map<string, bool>): (r: Plan)
    ensures p.system <= r.system && p.aur <= r.aur && p.manual <= r.manual
    ensures |r.system| + |r.aur| + |r.manual| <= |p.system| + |p.aur| + |p.manual| + 1
    ensures Skipped(d, reinstallFlags) ==> r == p
  {
    if Skipped(d, reinstallFlags) then p
    else if d.Name !in pm then p.(manual := p.manual + [d.Name])
    else
      match pm[d.Name].Repository
      case RepoTypeAUR => p.(aur := p.aur + [pm[d.Name].Name])
      case RepoTypeSystem => p.(system := p.system + [pm[d.Name].Name])
      case RepoTypeManual => p.(manual := p.manual + [d.Name])
      case _ => p
  }

  function Categorized(ds: seq<Dependency>, pm: map<string, PackageMapping>, reinstallFlags: map<string, bool>): (r: Plan)
  {
    if |ds| == 0 then Plan([], [], [])
    else AddDependency(Categorized(ds[..|ds| - 1], pm, reinstallFlags), ds[|ds| - 1], pm, reinstallFlags)
  }

  /** `categorizePackages`: records the variant of each dependency, builds
    * the mapping with them, and files each pending dependency. */
  method CategorizePackages(dependencies: seq<Dependency>, wm: WindowManager, reinstallFlags: map<string, bool>,
                            arm64: bool, gitInstalled: bool, binInstalled: bool)
    returns (systemPkgs: seq<string>, aurPkgs: seq<string>, manualPkgs: seq<string>)
    ensures Plan(systemPkgs, aurPkgs, manualPkgs)
            == Categorized(dependencies,
                           PackageMappingWithVariants(wm, VariantMap(dependencies), arm64, gitInstalled, binInstalled),
                           reinstallFlags)
  {
    var variantMap := RecordVariants(dependencies);
    var packageMap := PackageMappingWithVariants(wm, variantMap, arm64, gitInstalled, binInstalled);
    systemPkgs, aurPkgs, manualPkgs := FilePackages(dependencies, packageMap, reinstallFlags);
  }

  /** The first loop of `categorizePackages`: the variant of each
    * dependency by name. */
  method RecordVariants(dependencies: seq<Dependency>) returns (variantMap: map<string, PackageVariant>)
    ensures variantMap == VariantMap(dependencies)
  {
    variantMap := map[];
    var i := 0;
    while i < |dependencies|
      invariant 0 <= i <= |dependencies|
      invariant variantMap == VariantMap(dependencies[..i])
    {
      assert dependencies[..i + 1][..i] == dependencies[..i];
      variantMap := variantMap[dependencies[i].Name := dependencies[i].Variant];
      i := i + 1;
    }
    assert dependencies[..|dependencies|] == dependencies;
  }

  /** The second loop of `categorizePackages`: each pending dependency
    * filed by the repository of its mapping. */
  method FilePackages(dependencies: seq<Dependency>, packageMap: map<string, PackageMapping>,
                      reinstallFlags: map<string, bool>)
    returns (systemPkgs: seq<string>, aurPkgs: seq<string>, manualPkgs: seq<string>)
    ensures Plan(systemPkgs, aurPkgs, manualPkgs) == Categorized(dependencies, packageMap, reinstallFlags)
  {
    systemPkgs, aurPkgs, manualPkgs := [], [], [];
    var i := 0;
    while i < |dependencies|
      invariant 0 <= i <= |dependencies|
      invariant Plan(systemPkgs, aurPkgs, manualPkgs) == Categorized(dependencies[..i], packageMap, reinstallFlags)
    {
      var dep := dependencies[i];
      assert dependencies[..i + 1][..i] == dependencies[..i];
      if dep.Status == StatusInstalled && !(dep.Name in reinstallFlags && reinstallFlags[dep.Name]) {
      } else if dep.Name !in packageMap {
        manualPkgs := manualPkgs + [dep.Name];
      } else {
        var pkgInfo := packageMap[dep.Name];
        match pkgInfo.Repository {
          case RepoTypeAUR => aurPkgs := aurPkgs + [pkgInfo.Name];
          case RepoTypeSystem => systemPkgs := systemPkgs + [pkgInfo.Name];
          case RepoTypeManual => manualPkgs := manualPkgs + [dep.Name];
          case _ =>
        }
      }
      i := i + 1;
    }
    assert dependencies[..|dependencies|] == dependencies;
  }

  /** A name is a system package exactly when some pending dependency maps
    * to it in the repository. */
  lemma {:induction false} CategorizedSystem(ds: seq<Dependency>, pm: map<string, PackageMapping>,
                                             reinstallFlags: map<string, bool>, x: string)
    ensures x in Categorized(ds, pm, reinstallFlags).system
            <==> exists d :: d in ds && !Skipped(d, reinstallFlags) && d.Name in pm
                             && pm[d.Name].Repository == RepoTypeSystem && pm[d.Name].Name == x
  {
    if |ds| > 0 {
      var init, last := ds[..|ds| - 1], ds[|ds| - 1];
      CategorizedSystem(init, pm, reinstallFlags, x);
      assert ds == init + [last];
      assert forall d :: d in ds <==> d in init || d == last;
    }
  }

  /** A name is an AUR package exactly when some pending dependency maps
    * to it in the AUR. */
  lemma {:induction false} CategorizedAur(ds: seq<Dependency>, pm: map<string, PackageMapping>,
                                          reinstallFlags: map<string, bool>, x: string)
    ensures x in Categorized(ds, pm, reinstallFlags).aur
            <==> exists d :: d in ds && !Skipped(d, reinstallFlags) && d.Name in pm
                             && pm[d.Name].Repository == RepoTypeAUR && pm[d.Name].Name == x
  {
    if |ds| > 0 {
      var init, last := ds[..|ds| - 1], ds[|ds| - 1];
      CategorizedAur(init, pm, reinstallFlags, x);
      assert ds == init + [last];
      assert forall d :: d in ds <==> d in init || d == last;
    }
  }

  /** A name is a source build exactly when some pending dependency of that
    * name has no mapping or a source-build mapping; installed
    * dependencies that are not flagged contribute nothing. */
  lemma {:induction false} CategorizedManual(ds: seq<Dependency>, pm: map<string, PackageMapping>,
                                             reinstallFlags: map<string, bool>, x: string)
    ensures x in Categorized(ds, pm, reinstallFlags).manual
            <==> exists d :: d in ds && !Skipped(d, reinstallFlags) && d.Name == x
                             && (d.Name !in pm || pm[d.Name].Repository == RepoTypeManual)
  {
    if |ds| > 0 {
      var init, last := ds[..|ds| - 1], ds[|ds| - 1];
      CategorizedManual(init, pm, reinstallFlags, x);
      assert ds == init + [last];
      assert forall d :: d in ds <==> d in init || d == last;
    }
  }

  /** With a mapping whose every entry goes to the repository, the AUR or a
    * source build, each pending dependency fills exactly one slot. */
  lemma {:induction false} CategorizedCount(ds: seq<Dependency>, pm: map<string, PackageMapping>,
                                            reinstallFlags: map<string, bool>)
    requires forall name :: name in pm ==> ArchRepository(pm[name])
    ensures var p := Categorized(ds, pm, reinstallFlags);
            |p.system| + |p.aur| + |p.manual| == |Pending(ds, reinstallFlags)|
  {
    if |ds| > 0 {
      CategorizedCount(ds[..|ds| - 1], pm, reinstallFlags);
    }
  }

  /** The dependencies that are not skipped, in order. */
  function Pending(ds: seq<Dependency>, reinstallFlags: map<string, bool>): (r: seq<Dependency>)
  {
    if |ds| == 0 then []
    else Pending(ds[..|ds| - 1], reinstallFlags)
         + (if Skipped(ds[|ds| - 1], reinstallFlags) then [] else [ds[|ds| - 1]])
  }

  // ---------------------------------------------------------------------
  // reorderAURPackages

  /** The packages the shell needs before it can be built. */
  const DmsDependencies: seq<string> := ["quickshell", "quickshell-git", "dgop"]

  predicate IsDmsShell(pkg: string)
  {
    pkg == "dms-shell-git" || pkg == "dms-shell-bin"
  }

  /** The build group of a package: the shell's dependencies first (0),
    * then everything else (1), then the shell itself (2). */
  function Group(pkg: string): (g: nat)
    ensures g <= 2
  {
    if IsDmsShell(pkg) then 2 else if pkg in DmsDependencies then 0 else 1
  }

  /** The packages of one group, in their order. */
  function InGroup(ps: seq<string>, g: nat): (r: seq<string>)
    ensures forall k :: 0 <= k < |r| ==> Group(r[k]) == g
  {
    if |ps| == 0 then []
    else InGroup(ps[..|ps| - 1], g) + (if Group(ps[|ps| - 1]) == g then [ps[|ps| - 1]] else [])
  }

  /** The build order: the three groups one after the other. */
  function Reordered(ps: seq<string>): (r: seq<string>)
  {
    InGroup(ps, 0) + InGroup(ps, 1) + InGroup(ps, 2)
  }

  /** `reorderAURPackages`: files each package in its group, looking it up
    * in the dependency list, and joins the groups. */
  method ReorderAURPackages(packages: seq<string>) returns (result: seq<string>)
    ensures result == Reordered(packages)
  {
    var deps, others, dmsShell := [], [], [];
    var i := 0;
    while i < |packages|
      invariant 0 <= i <= |packages|
      invariant deps == InGroup(packages[..i], 0)
      invariant others == InGroup(packages[..i], 1)
      invariant dmsShell == InGroup(packages[..i], 2)
    {
      var pkg := packages[i];
      assert packages[..i + 1][..i] == packages[..i];
      if pkg == "dms-shell-git" || pkg == "dms-shell-bin" {
        dmsShell := dmsShell + [pkg];
      } else {
        var isDep := false;
        var j := 0;
        while j < |DmsDependencies| && !isDep
          invariant 0 <= j <= |DmsDependencies|
          invariant isDep <==> pkg in DmsDependencies[..j]
          invariant isDep ==> deps == InGroup(packages[..i], 0) + [pkg]
          invariant !isDep ==> deps == InGroup(packages[..i], 0)
        {
          assert DmsDependencies[..j + 1] == DmsDependencies[..j] + [DmsDependencies[j]];
          if pkg == DmsDependencies[j] {
            deps := deps + [pkg];
            isDep := true;
          }
          j := j + 1;
        }
        assert DmsDependencies[..|DmsDependencies|] == DmsDependencies;
        if !isDep {
          others := others + [pkg];
        }
      }
      i := i + 1;
    }
    assert packages[..|packages|] == packages;
    result := deps + others;
    result := result + dmsShell;
  }

  /** The groups together hold every package exactly as often as the
    * input. */
  lemma {:induction false} GroupsPartition(ps: seq<string>)
    ensures multiset(InGroup(ps, 0)) + multiset(InGroup(ps, 1)) + multiset(InGroup(ps, 2)) == multiset(ps)
  {
    if |ps| > 0 {
      var init, last := ps[..|ps| - 1], ps[|ps| - 1];
      GroupsPartition(init);
      assert ps == init + [last];
      assert multiset(ps) == multiset(init) + multiset{last};
      GroupsStep(ps);
    }
  }

  /** One more package adds itself to the groups once. */
  lemma GroupsStep(ps: seq<string>)
    requires |ps| > 0
    ensures var init := ps[..|ps| - 1];
            multiset(InGroup(ps, 0)) + multiset(InGroup(ps, 1)) + multiset(InGroup(ps, 2))
            == multiset(InGroup(init, 0)) + multiset(InGroup(init, 1)) + multiset(InGroup(init, 2)) + multiset{ps[|ps| - 1]}
  {
    var g := Group(ps[|ps| - 1]);
    GroupStep(ps, 0);
    GroupStep(ps, 1);
    GroupStep(ps, 2);
    if g == 0 {
      assert multiset(InGroup(ps, 1)) == multiset(InGroup(ps[..|ps| - 1], 1));
    } else if g == 1 {
      assert multiset(InGroup(ps, 0)) == multiset(InGroup(ps[..|ps| - 1], 0));
    } else {
      assert multiset(InGroup(ps, 0)) == multiset(InGroup(ps[..|ps| - 1], 0));
    }
  }

  /** One more package adds itself to its own group only. */
  lemma GroupStep(ps: seq<string>, h: nat)
    requires |ps| > 0
    ensures multiset(InGroup(ps, h))
            == multiset(InGroup(ps[..|ps| - 1], h)) + (if Group(ps[|ps| - 1]) == h then multiset{ps[|ps| - 1]} else multiset{})
  {
  }

  /** The build order is a permutation of the packages. */
  lemma ReorderedIsPermutation(ps: seq<string>)
    ensures multiset(Reordered(ps)) == multiset(ps)
  {
    GroupsPartition(ps);
  }

  /** The groups come in order: no later package belongs to an earlier
    * group. */
  lemma ReorderedGroupsInOrder(ps: seq<string>)
    ensures var r := Reordered(ps);
            forall i, j :: 0 <= i < j < |r| ==> Group(r[i]) <= Group(r[j])
  {
    var a, b, c := InGroup(ps, 0), InGroup(ps, 1), InGroup(ps, 2);
    var r := Reordered(ps);
    forall k | 0 <= k < |r| ensures Group(r[k]) == (if k < |a| then 0 else if k < |a| + |b| then 1 else 2) {
      if k < |a| {
        assert r[k] == a[k];
      } else if k < |a| + |b| {
        assert r[k] == b[k - |a|];
      } else {
        assert r[k] == c[k - |a| - |b|];
      }
    }
  }

  /** Picking one group is compatible with concatenation. */
  lemma {:induction false} InGroupAppend(xs: seq<string>, ys: seq<string>, g: nat)
    ensures InGroup(xs + ys, g) == InGroup(xs, g) + InGroup(ys, g)
    decreases |ys|
  {
    if |ys| > 0 {
      var ys0 := ys[..|ys| - 1];
      assert (xs + ys)[..|xs + ys| - 1] == xs + ys0;
      InGroupAppend(xs, ys0, g);
    } else {
      assert xs + ys == xs;
    }
  }

  /** The packages of one group keep all their members. */
  lemma {:induction false} InGroupIdempotent(ps: seq<string>, g: nat, h: nat)
    requires forall k :: 0 <= k < |ps| ==> Group(ps[k]) == g
    ensures InGroup(ps, h) == if h == g then ps else []
  {
    if |ps| > 0 {
      var init, last := ps[..|ps| - 1], ps[|ps| - 1];
      assert forall k :: 0 <= k < |init| ==> Group(init[k]) == g by {
        forall k | 0 <= k < |init| ensures Group(init[k]) == g {
          assert init[k] == ps[k];
        }
      }
      InGroupIdempotent(init, g, h);
      assert Group(last) == g;
      assert ps == init + [last];
    }
  }

  /** Within each group the packages keep their input order. */
  lemma ReorderedStable(ps: seq<string>, g: nat)
    ensures InGroup(Reordered(ps), g) == InGroup(ps, g)
  {
    var a, b, c := InGroup(ps, 0), InGroup(ps, 1), InGroup(ps, 2);
    assert InGroup(Reordered(ps), g) == InGroup(a, g) + InGroup(b, g) + InGroup(c, g) by {
      InGroupAppend(a + b, c, g);
      InGroupAppend(a, b, g);
    }
    InGroupIdempotent(a, 0, g);
    InGroupIdempotent(b, 1, g);
    InGroupIdempotent(c, 2, g);
    if g > 2 {
      InGroupEmpty(ps, g);
    }
    OnlyOnePart(a, b, c, g, InGroup(ps, g));
  }

  /** Of three parts, the one picked by `g`; none when `g` picks none. */
  lemma OnlyOnePart(a: seq<string>, b: seq<string>, c: seq<string>, g: nat, r: seq<string>)
    requires g == 0 ==> r == a
    requires g == 1 ==> r == b
    requires g == 2 ==> r == c
    requires g > 2 ==> r == []
    ensures (if g == 0 then a else []) + (if g == 1 then b else []) + (if g == 2 then c else []) == r
  {
    if g == 0 {
      assert a + [] + [] == a;
    } else if g == 1 {
      assert [] + b + [] == b;
    } else if g == 2 {
      assert [] + [] + c == c;
    }
  }

  /** No package is in a group above 2. */
  lemma {:induction false} InGroupEmpty(ps: seq<string>, g: nat)
    requires g > 2
    ensures InGroup(ps, g) == []
  {
    if |ps| > 0 {
      InGroupEmpty(ps[..|ps| - 1], g);
    }
  }
}
