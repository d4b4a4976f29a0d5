/** The update screen's grouping of the dependencies: which are hidden,
  * which category each belongs to, and the order in which they are
  * listed. */
module DmsViewsFeatures {
  import opened Common
  import opened DmsDetector

  /** Dependencies the update screen never lists. */
  predicate Excluded(name: string)
  {
    name in {"git", "polkit-agent", "jq", "xdg-desktop-portal", "xdg-desktop-portal-wlr",
             "xdg-desktop-portal-hyprland", "xdg-desktop-portal-gtk"}
  }

  /** The four categories; the source keys its map by their labels. */
  datatype Category = Shell | Shared | Hyprland | Niri

  function Label(c: Category): string
  {
    match c
    case Shell => "Shell"
    case Shared => "Shared Components"
    case Hyprland => "Hyprland Components"
    case Niri => "Niri Components"
  }

  /** Distinct categories have distinct labels. */
  lemma LabelInjective(a: Category, b: Category)
    requires Label(a) == Label(b)
    ensures a == b
  {
    assert |Label(a)| == |Label(b)|;
  }

  /** The category of a dependency, decided by its name alone; every name
    * not listed for the shell or a compositor is shared. */
  function CategoryOf(name: string): Category
  {
    if name == "dms (DankMaterialShell)" || name == "quickshell" then Shell
    else if name in {"hyprland", "grim", "slurp", "hyprctl", "grimblast"} then Hyprland
    else if name == "niri" then Niri
    else Shared
  }

  /** The dependency is listed under category `c`. */
  predicate Placed(c: Category, d: DependencyInfo)
  {
    !Excluded(d.Name) && CategoryOf(d.Name) == c
  }

  /** The dependencies listed under `c`, in their order. */
  function Members(deps: seq<DependencyInfo>, c: Category): seq<DependencyInfo>
  {
    if |deps| == 0 then []
    else
      var last := deps[|deps| - 1];
      Members(deps[..|deps| - 1], c) + (if Placed(c, last) then [last] else [])
  }

  lemma MembersAppend(deps: seq<DependencyInfo>, dep: DependencyInfo, c: Category)
    ensures Members(deps + [dep], c) == Members(deps, c) + (if Placed(c, dep) then [dep] else [])
  {
    assert (deps + [dep])[..|deps|] == deps;
  }

  /** A dependency is listed under `c` exactly when it is among the
    * dependencies and placed there. */
  lemma {:induction false} MembersIn(deps: seq<DependencyInfo>, c: Category, x: DependencyInfo)
    ensures x in Members(deps, c) <==> x in deps && Placed(c, x)
  {
    if |deps| > 0 {
      var init := deps[..|deps| - 1];
      assert deps == init + [deps[|deps| - 1]];
      MembersIn(init, c, x);
    }
  }

  /** The four categories of some dependencies. */
  function Table(deps: seq<DependencyInfo>): map<Category, seq<DependencyInfo>>
  {
    map[Shell := Members(deps, Shell), Shared := Members(deps, Shared),
        Hyprland := Members(deps, Hyprland), Niri := Members(deps, Niri)]
  }

  /** `categorizeDependencies`: each of the four categories holds, in
    * order, the dependencies of that category that are not excluded. */
  method CategorizeDependencies(deps: seq<DependencyInfo>) returns (categories: map<Category, seq<DependencyInfo>>)
    ensures categories.Keys == {Shell, Shared, Hyprland, Niri}
    ensures forall c :: c in categories ==> categories[c] == Members(deps, c)
  {
    categories := map[Shell := [], Shared := [], Hyprland := [], Niri := []];
    var i := 0;
    while i < |deps|
      invariant 0 <= i <= |deps|
      invariant categories == Table(deps[..i])
    {
      var dep := deps[i];
      assert deps[..i + 1] == deps[..i] + [dep];
      TableAppend(deps[..i], dep);
      if !Excluded(dep.Name) {
        var c := CategoryOf(dep.Name);
        categories := categories[c := categories[c] + [dep]];
      }
      i := i + 1;
    }
    assert deps[..i] == deps;
  }

  /** One more dependency goes to the end of its own category, unless it
    * is excluded. */
  lemma TableAppend(deps: seq<DependencyInfo>, dep: DependencyInfo)
    ensures Table(deps + [dep])
            == if Excluded(dep.Name) then Table(deps)
               else Table(deps)[CategoryOf(dep.Name) := Table(deps)[CategoryOf(dep.Name)] + [dep]]
  {
    var t, u := Table(deps), Table(deps + [dep]);
    var expected := if Excluded(dep.Name) then t else t[CategoryOf(dep.Name) := t[CategoryOf(dep.Name)] + [dep]];
    forall c ensures c in u && c in expected && u[c] == expected[c] {
      MembersAppend(deps, dep, c);
      match c
      case Shell =>
      case Shared =>
      case Hyprland =>
      case Niri =>
    }
    assert u.Keys == expected.Keys;
  }

  /** The order in which the categories are listed. */
  const CategoryOrder: seq<Category> := [Shell, Shared, Hyprland, Niri]

  /** The listed dependencies: the categories one after the other in
    * their listing order. */
  function FilteredDeps(deps: seq<DependencyInfo>): seq<DependencyInfo>
  {
    Members(deps, Shell) + Members(deps, Shared) + Members(deps, Hyprland) + Members(deps, Niri)
  }

  /** `getFilteredDeps`: the categories concatenated in listing order. */
  method GetFilteredDeps(deps: seq<DependencyInfo>) returns (filtered: seq<DependencyInfo>)
    ensures filtered == FilteredDeps(deps)
  {
    var categories := CategorizeDependencies(deps);
    filtered := [];
    var i := 0;
    while i < |CategoryOrder|
      invariant 0 <= i <= |CategoryOrder|
      invariant filtered == ConcatCategories(deps, CategoryOrder[..i])
    {
      var category := CategoryOrder[i];
      assert CategoryOrder[..i + 1] == CategoryOrder[..i] + [category];
      ConcatCategoriesAppend(deps, CategoryOrder[..i], category);
      assert category in categories;
      if category in categories {
        filtered := filtered + categories[category];
      }
      i := i + 1;
    }
    assert CategoryOrder[..i] == CategoryOrder;
    ConcatCategoriesInOrder(deps);
  }

  /** The dependencies of the named categories, one category after the
    * other. */
  function ConcatCategories(deps: seq<DependencyInfo>, names: seq<Category>): seq<DependencyInfo>
  {
    if |names| == 0 then [] else ConcatCategories(deps, names[..|names| - 1]) + Members(deps, names[|names| - 1])
  }

  lemma ConcatCategoriesAppend(deps: seq<DependencyInfo>, names: seq<Category>, c: Category)
    ensures ConcatCategories(deps, names + [c]) == ConcatCategories(deps, names) + Members(deps, c)
  {
    assert (names + [c])[..|names|] == names;
  }

  lemma ConcatCategoriesInOrder(deps: seq<DependencyInfo>)
    ensures ConcatCategories(deps, CategoryOrder) == FilteredDeps(deps)
  {
    var s0, s1, s2, s3 := Members(deps, Shell), Members(deps, Shared), Members(deps, Hyprland), Members(deps, Niri);
    assert CategoryOrder[..3] == [Shell, Shared, Hyprland];
    assert [Shell, Shared, Hyprland][..2] == [Shell, Shared];
    assert [Shell, Shared][..1] == [Shell];
    assert [Shell][..0] == [];
    assert ConcatCategories(deps, [Shell]) == s0;
    assert ConcatCategories(deps, [Shell, Shared]) == s0 + s1;
    assert ConcatCategories(deps, [Shell, Shared, Hyprland]) == s0 + s1 + s2;
  }

  /** A dependency is listed exactly when it is among the dependencies and
    * not excluded, and no more dependencies are listed than there are. */
  lemma FilteredDepsMembers(deps: seq<DependencyInfo>, d: DependencyInfo)
    ensures d in FilteredDeps(deps) <==> d in deps && !Excluded(d.Name)
    ensures |FilteredDeps(deps)| <= |deps|
  {
    MembersIn(deps, Shell, d);
    MembersIn(deps, Shared, d);
    MembersIn(deps, Hyprland, d);
    MembersIn(deps, Niri, d);
    CategoriesPartition(deps);
  }

  /** The four categories split the non-excluded dependencies: together
    * they are no more than all of them. */
  lemma {:induction false} CategoriesPartition(deps: seq<DependencyInfo>)
    ensures |Members(deps, Shell)| + |Members(deps, Shared)| + |Members(deps, Hyprland)| + |Members(deps, Niri)|
            <= |deps|
  {
    if |deps| > 0 {
      CategoriesPartition(deps[..|deps| - 1]);
    }
  }

  /** `getDepAtVisualIndex`: the listed dependency at `index`, or none when
    * the index is outside the list. */
  function DepAtVisualIndex(deps: seq<DependencyInfo>, index: int): (r: Option<DependencyInfo>)
    ensures r.None? <==> !(0 <= index < |FilteredDeps(deps)|)
    ensures r.Some? ==> r.value == FilteredDeps(deps)[index] && r.value in deps && !Excluded(r.value.Name)
  {
    var filtered := FilteredDeps(deps);
    if 0 <= index < |filtered| then
      FilteredDepsMembers(deps, filtered[index]);
      Some(filtered[index])
    else None
  }
}
