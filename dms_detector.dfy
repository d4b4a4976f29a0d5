/** The management menu's view of the installed dependencies: the
  * Hyprland and Niri dependency lists merged into one entry per name, and
  * the list of installed components shown to the user. Detecting the
  * dependencies and whether the system is NixOS are done by the caller. */
module DmsDetector {
  import opened Common
  import opened DepsTypes
  import Sorting

  /** Every entry is stored under its own name. */
  predicate Keyed(m: map<string, Dependency>)
  {
    forall k :: k in m ==> m[k].Name == k
  }

  /** The names of some dependencies, in order. */
  function Names(ds: seq<Dependency>): (r: seq<string>)
    ensures |r| == |ds| && forall i :: 0 <= i < |ds| ==> r[i] == ds[i].Name
  {
    seq(|ds|, i requires 0 <= i < |ds| => ds[i].Name)
  }

  /** The dependency map after storing each dependency in order under its
    * name; a later entry for a name overwrites an earlier one. */
  function PutAll(m: map<string, Dependency>, ds: seq<Dependency>): (r: map<string, Dependency>)
    ensures forall k :: k in r <==> k in m || k in Names(ds)
  {
    if |ds| == 0 then m
    else
      var init, last := ds[..|ds| - 1], ds[|ds| - 1];
      assert Names(ds) == Names(init) + [last.Name];
      PutAll(m, init)[last.Name := last]
  }

  /** Storing keeps every entry under its own name, and an entry is either
    * one of the stored dependencies or was there before and was not
    * overwritten. */
  lemma {:induction false} PutAllKeyed(m: map<string, Dependency>, ds: seq<Dependency>)
    requires Keyed(m)
    ensures Keyed(PutAll(m, ds))
    ensures forall k :: k in PutAll(m, ds) ==>
              PutAll(m, ds)[k] in ds || (k in m && k !in Names(ds) && PutAll(m, ds)[k] == m[k])
  {
    if |ds| > 0 {
      var init, last := ds[..|ds| - 1], ds[|ds| - 1];
      assert ds == init + [last];
      assert Names(ds) == Names(init) + [last.Name];
      PutAllKeyed(m, init);
    }
  }

  /** The dependency map after merging each dependency in order: a name not
    * yet present is added, and a present one is replaced only by an entry
    * whose status is strictly greater. */
  function MergeGreater(m: map<string, Dependency>, ds: seq<Dependency>): (r: map<string, Dependency>)
    ensures forall k :: k in r <==> k in m || k in Names(ds)
  {
    if |ds| == 0 then m
    else
      var init, d := ds[..|ds| - 1], ds[|ds| - 1];
      assert Names(ds) == Names(init) + [d.Name];
      MergeOne(MergeGreater(m, init), d)
  }

  /** Merging one dependency. */
  function MergeOne(m: map<string, Dependency>, d: Dependency): (r: map<string, Dependency>)
    ensures forall k :: k in r <==> k in m || k == d.Name
  {
    if d.Name in m then
      if Rank(d.Status) > Rank(m[d.Name].Status) then m[d.Name := d] else m
    else m[d.Name := d]
  }

  /** Merging one more dependency is one more merge step. */
  lemma MergeGreaterSnoc(m: map<string, Dependency>, init: seq<Dependency>, d: Dependency)
    ensures MergeGreater(m, init + [d]) == MergeOne(MergeGreater(m, init), d)
  {
    var ds := init + [d];
    assert ds[..|ds| - 1] == init && ds[|ds| - 1] == d;
  }

  /** Merging one dependency keeps every entry under its own name, and
    * changes an entry only to that dependency, only when it is new or
    * its status is strictly greater. */
  lemma MergeOneEntries(m: map<string, Dependency>, d: Dependency)
    requires Keyed(m)
    ensures var r := MergeOne(m, d);
            Keyed(r)
            && (forall k :: k in m && r[k] != m[k] ==> Rank(r[k].Status) > Rank(m[k].Status) && r[k] == d)
            && (forall k :: k in r && k !in m ==> r[k] == d)
  {
  }

  /** Merging one dependency never lowers a status, and leaves its name
    * with a status at least its own. */
  lemma MergeOneKeepsMax(m: map<string, Dependency>, d: Dependency)
    ensures var r := MergeOne(m, d);
            (forall k :: k in m ==> Rank(r[k].Status) >= Rank(m[k].Status))
            && Rank(r[d.Name].Status) >= Rank(d.Status)
  {
  }

  /** Merging keeps every entry under its own name; an entry that was there
    * is kept unless replaced by one of the merged dependencies with a
    * strictly greater status; a new entry is one of the merged
    * dependencies. */
  lemma {:induction false} MergeGreaterEntries(m: map<string, Dependency>, ds: seq<Dependency>)
    requires Keyed(m)
    ensures var r := MergeGreater(m, ds);
            Keyed(r)
            && (forall k :: k in m && r[k] != m[k] ==> Rank(r[k].Status) > Rank(m[k].Status) && r[k] in ds)
            && (forall k :: k in r && k !in m ==> r[k] in ds)
  {
    if |ds| > 0 {
      var init, d := ds[..|ds| - 1], ds[|ds| - 1];
      assert ds == init + [d];
      MergeGreaterEntries(m, init);
      var before := MergeGreater(m, init);
      MergeOneEntries(before, d);
      assert MergeGreater(m, ds) == MergeOne(before, d);
    }
  }

  /** After merging, the entry of a name has a status at least as great as
    * that of the entry before and of every merged dependency of that
    * name: the merge keeps the greatest status. */
  lemma {:induction false} MergeGreaterKeepsMax(m: map<string, Dependency>, ds: seq<Dependency>)
    ensures var r := MergeGreater(m, ds);
            (forall k :: k in m ==> Rank(r[k].Status) >= Rank(m[k].Status))
            && (forall i :: 0 <= i < |ds| ==> Rank(r[ds[i].Name].Status) >= Rank(ds[i].Status))
  {
    if |ds| > 0 {
      var init, d := ds[..|ds| - 1], ds[|ds| - 1];
      assert ds == init + [d];
      MergeGreaterKeepsMax(m, init);
      var before := MergeGreater(m, init);
      assert MergeGreater(m, ds) == MergeOne(before, d);
      MergeOneKeepsMax(before, d);
      KeepsMaxStep(m, before, MergeOne(before, d), init, d);
    }
  }

  /** One more step of a merge that never lowers a status and leaves the
    * merged name at least as great as the merged dependency. */
  lemma KeepsMaxStep(m: map<string, Dependency>, before: map<string, Dependency>, r: map<string, Dependency>,
                     init: seq<Dependency>, d: Dependency)
    requires forall k :: k in m ==> k in before && Rank(before[k].Status) >= Rank(m[k].Status)
    requires forall i :: 0 <= i < |init| ==>
               init[i].Name in before && Rank(before[init[i].Name].Status) >= Rank(init[i].Status)
    requires forall k :: k in before ==> k in r && Rank(r[k].Status) >= Rank(before[k].Status)
    requires d.Name in r && Rank(r[d.Name].Status) >= Rank(d.Status)
    ensures forall k :: k in m ==> k in r && Rank(r[k].Status) >= Rank(m[k].Status)
    ensures var ds := init + [d];
            forall i :: 0 <= i < |ds| ==> ds[i].Name in r && Rank(r[ds[i].Name].Status) >= Rank(ds[i].Status)
  {
    var ds := init + [d];
    forall i | 0 <= i < |ds| ensures ds[i].Name in r && Rank(r[ds[i].Name].Status) >= Rank(ds[i].Status) {
      if i < |init| {
        assert ds[i] == init[i];
      }
    }
  }

  /** The merged dependencies of both window managers, keyed by name. */
  function Merged(hyprlandDeps: seq<Dependency>, niriDeps: seq<Dependency>): (r: map<string, Dependency>)
    ensures forall k :: k in r <==> k in Names(hyprlandDeps) || k in Names(niriDeps)
    ensures Keyed(r)
  {
    PutAllKeyed(map[], hyprlandDeps);
    MergeGreaterEntries(PutAll(map[], hyprlandDeps), niriDeps);
    MergeGreater(PutAll(map[], hyprlandDeps), niriDeps)
  }

  /** `GetDependencyStatus`, given the outcome of detecting the Hyprland and
    * the Niri dependencies: the first detection error is returned;
    * otherwise the dependencies are merged and listed once per name, in
    * some order of the map. */
  method GetDependencyStatus(hyprland: Result<seq<Dependency>>, niri: Result<seq<Dependency>>)
    returns (r: Result<seq<Dependency>>)
    ensures hyprland.Err? ==> r == Err(hyprland.msg)
    ensures hyprland.Ok? && niri.Err? ==> r == Err(niri.msg)
    ensures hyprland.Ok? && niri.Ok? ==>
              var merged := Merged(hyprland.value, niri.value);
              r.Ok?
              && (forall i :: 0 <= i < |r.value| ==> r.value[i].Name in merged && merged[r.value[i].Name] == r.value[i])
              && (forall i, j :: 0 <= i < j < |r.value| ==> r.value[i].Name != r.value[j].Name)
              && (forall k :: k in merged ==> k in Names(r.value))
  {
    if hyprland.Err? {
      return Err(hyprland.msg);
    }
    if niri.Err? {
      return Err(niri.msg);
    }
    var hyprlandDeps, niriDeps := hyprland.value, niri.value;
    var depMap := StoreAll(map[], hyprlandDeps);
    depMap := MergeAll(depMap, niriDeps);
    assert depMap == Merged(hyprlandDeps, niriDeps);
    var all := MapValues(depMap);
    return Ok(all);
  }

  /** The first loop of `GetDependencyStatus`: each dependency is stored
    * under its name. */
  method StoreAll(m: map<string, Dependency>, ds: seq<Dependency>) returns (r: map<string, Dependency>)
    ensures r == PutAll(m, ds)
  {
    r := m;
    var i := 0;
    while i < |ds|
      invariant 0 <= i <= |ds|
      invariant r == PutAll(m, ds[..i])
    {
      assert ds[..i + 1][..i] == ds[..i];
      var dep := ds[i];
      r := r[dep.Name := dep];
      i := i + 1;
    }
    assert ds[..i] == ds;
  }

  /** The second loop of `GetDependencyStatus`: each dependency is merged,
    * replacing a present entry only when its status is strictly greater. */
  method MergeAll(m: map<string, Dependency>, ds: seq<Dependency>) returns (r: map<string, Dependency>)
    ensures r == MergeGreater(m, ds)
  {
    r := m;
    var j := 0;
    while j < |ds|
      invariant 0 <= j <= |ds|
      invariant r == MergeGreater(m, ds[..j])
    {
      var dep := ds[j];
      assert ds[..j + 1] == ds[..j] + [dep];
      MergeGreaterSnoc(m, ds[..j], dep);
      ghost var before := r;
      if dep.Name in r {
        var existing := r[dep.Name];
        if Rank(dep.Status) > Rank(existing.Status) {
          r := r[dep.Name := dep];
        }
      } else {
        r := r[dep.Name := dep];
      }
      assert r == MergeOne(before, dep);
      j := j + 1;
    }
    assert ds[..j] == ds;
  }

  /** The entries of a keyed map, one per key, in an order of the solver's
    * choosing (the source's map iteration order is unspecified). */
  method MapValues(m: map<string, Dependency>) returns (all: seq<Dependency>)
    requires Keyed(m)
    ensures forall i :: 0 <= i < |all| ==> all[i].Name in m && m[all[i].Name] == all[i]
    ensures forall i, j :: 0 <= i < j < |all| ==> all[i].Name != all[j].Name
    ensures forall k :: k in m ==> k in Names(all)
  {
    all := [];
    var rest := m.Keys;
    while rest != {}
      invariant rest <= m.Keys
      invariant forall i :: 0 <= i < |all| ==> all[i].Name in m.Keys - rest && m[all[i].Name] == all[i]
      invariant forall i, j :: 0 <= i < j < |all| ==> all[i].Name != all[j].Name
      invariant forall k :: k in m.Keys - rest ==> k in Names(all)
      decreases |rest|
    {
      var k :| k in rest;
      assert Names(all + [m[k]]) == Names(all) + [k];
      all := all + [m[k]];
      rest := rest - {k};
    }
  }

  /** A dependency as the menu shows it. */
  datatype DependencyInfo = DependencyInfo(Name: string, Status: DependencyStatus, Description: string, Required: bool)

  function InfoOf(d: Dependency): DependencyInfo
  {
    DependencyInfo(d.Name, d.Status, d.Description, d.Required)
  }

  /** The shown form of each dependency, in order. */
  function Infos(ds: seq<Dependency>): (r: seq<DependencyInfo>)
    ensures |r| == |ds| && forall i :: 0 <= i < |ds| ==> r[i] == InfoOf(ds[i])
  {
    seq(|ds|, i requires 0 <= i < |ds| => InfoOf(ds[i]))
  }

  lemma InfosAppend(ds: seq<Dependency>, d: Dependency)
    ensures Infos(ds + [d]) == Infos(ds) + [InfoOf(d)]
  {
  }

  /** On NixOS the window managers themselves are not listed as
    * components. */
  function Listed(isNixOS: bool): Dependency -> bool
  {
    (d: Dependency) => !(isNixOS && (d.Name == "hyprland" || d.Name == "niri"))
  }

  /** `GetInstalledComponents`, given the outcome of `GetDependencyStatus`
    * and whether the system is NixOS: nothing on error, otherwise every
    * dependency but, on NixOS, the window managers. */
  method GetInstalledComponents(dependencies: Result<seq<Dependency>>, isNixOS: bool)
    returns (components: seq<DependencyInfo>)
    ensures dependencies.Err? ==> components == []
    ensures dependencies.Ok? ==> components == Infos(Sorting.Filter(dependencies.value, Listed(isNixOS)))
  {
    if dependencies.Err? {
      return [];
    }
    var ds := dependencies.value;
    components := [];
    ghost var kept: seq<Dependency> := [];
    var i := 0;
    while i < |ds|
      invariant 0 <= i <= |ds|
      invariant kept == Sorting.Filter(ds[..i], Listed(isNixOS))
      invariant components == Infos(kept)
    {
      var dep := ds[i];
      assert ds[..i + 1] == ds[..i] + [dep];
      Sorting.FilterAppend(ds[..i], dep, Listed(isNixOS));
      if !(isNixOS && (dep.Name == "hyprland" || dep.Name == "niri")) {
        assert Listed(isNixOS)(dep);
        InfosAppend(kept, dep);
        kept := kept + [dep];
        components := components + [InfoOf(dep)];
      } else {
        assert !Listed(isNixOS)(dep);
      }
      i := i + 1;
    }
    assert ds[..i] == ds;
  }

  /** A component is listed exactly when it is among the dependencies and
    * is not, on NixOS, one of the window managers. */
  lemma InstalledComponentsMembers(ds: seq<Dependency>, isNixOS: bool, d: Dependency)
    ensures InfoOf(d) in Infos(Sorting.Filter(ds, Listed(isNixOS))) <==>
              exists e :: e in ds && InfoOf(e) == InfoOf(d)
                          && !(isNixOS && (d.Name == "hyprland" || d.Name == "niri"))
  {
    var kept := Sorting.Filter(ds, Listed(isNixOS));
    var shown := Infos(kept);
    if InfoOf(d) in shown {
      var i :| 0 <= i < |shown| && shown[i] == InfoOf(d);
      Sorting.FilterMembers(ds, Listed(isNixOS), kept[i]);
      assert kept[i] in kept;
    }
    if exists e :: e in ds && InfoOf(e) == InfoOf(d) && !(isNixOS && (d.Name == "hyprland" || d.Name == "niri")) {
      var e :| e in ds && InfoOf(e) == InfoOf(d) && !(isNixOS && (d.Name == "hyprland" || d.Name == "niri"));
      Sorting.FilterMembers(ds, Listed(isNixOS), e);
      var i :| 0 <= i < |kept| && kept[i] == e;
      assert shown[i] == InfoOf(d);
    }
  }
}
