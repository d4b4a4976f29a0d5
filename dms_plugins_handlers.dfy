/** The keys of the plugin screens: the plugins menu, the registry browser
  * and its search field, a plugin's details, and the installed plugins;
  * and the search that filters the browser's list. */
module DmsPluginsHandlers {
  import opened Strs
  import opened PluginsSearch
  import opened DmsModel
  import Sorting

  /** A menu selection in the range of `n` entries. */
  predicate InRange(i: int, n: int)
  {
    0 <= i < n
  }

  /** The selection after "up": one higher unless already at the top. */
  function MoveUp(i: int): (r: int)
    ensures i > 0 ==> r == i - 1
    ensures i <= 0 ==> r == i
    ensures forall n :: InRange(i, n) ==> InRange(r, n)
  {
    if i > 0 then i - 1 else i
  }

  /** The selection after "down" among `n` entries: one lower unless
    * already at the bottom. */
  function MoveDown(i: int, n: int): (r: int)
    ensures i < n - 1 ==> r == i + 1
    ensures i >= n - 1 ==> r == i
    ensures InRange(i, n) ==> InRange(r, n)
  {
    if i < n - 1 then i + 1 else i
  }

  /** `updatePluginsMenu`. "ctrl+c"/"q" quit; Esc returns to the main menu;
    * "up"/"down" move within the menu; Enter or Space on "browse" starts
    * loading the registry and on "installed" starts loading the installed
    * plugins, each with its list and error cleared. */
  function UpdatePluginsMenu(m: Model, key: string): (r: (Model, Cmd))
    requires key == "enter" || key == " " ==> 0 <= m.selectedPluginsMenuItem
    ensures key == "ctrl+c" || key == "q" ==> r == (m, Quit)
    ensures key == "esc" ==> r == (m.(state := StateMainMenu), NoCmd)
    ensures key == "up" || key == "k" ==>
              r == (m.(selectedPluginsMenuItem := MoveUp(m.selectedPluginsMenuItem)), NoCmd)
    ensures key == "down" || key == "j" ==>
              r == (m.(selectedPluginsMenuItem := MoveDown(m.selectedPluginsMenuItem, |m.pluginsMenuItems|)), NoCmd)
    ensures (key == "enter" || key == " ") ==>
              var i := m.selectedPluginsMenuItem;
              if i < |m.pluginsMenuItems| && m.pluginsMenuItems[i].Action == StatePluginsBrowse then
                r == (m.(state := StatePluginsBrowse, pluginsLoading := true, pluginsError := "", pluginsList := []), LoadPlugins)
              else if i < |m.pluginsMenuItems| && m.pluginsMenuItems[i].Action == StatePluginsInstalled then
                r == (m.(state := StatePluginsInstalled, installedPluginsLoading := true, installedPluginsError := "",
                         installedPluginsList := []), LoadInstalledPlugins)
              else r == (m, NoCmd)
    ensures key !in {"ctrl+c", "q", "esc", "up", "k", "down", "j", "enter", " "} ==> r == (m, NoCmd)
    ensures InRange(m.selectedPluginsMenuItem, |m.pluginsMenuItems|) ==>
              InRange(r.0.selectedPluginsMenuItem, |r.0.pluginsMenuItems|)
  {
    if key == "ctrl+c" || key == "q" then (m, Quit)
    else if key == "esc" then (m.(state := StateMainMenu), NoCmd)
    else if key == "up" || key == "k" then
      (m.(selectedPluginsMenuItem := if m.selectedPluginsMenuItem > 0 then m.selectedPluginsMenuItem - 1
                                     else m.selectedPluginsMenuItem), NoCmd)
    else if key == "down" || key == "j" then
      (m.(selectedPluginsMenuItem := if m.selectedPluginsMenuItem < |m.pluginsMenuItems| - 1
                                     then m.selectedPluginsMenuItem + 1 else m.selectedPluginsMenuItem), NoCmd)
    else if key == "enter" || key == " " then
      if m.selectedPluginsMenuItem < |m.pluginsMenuItems| then
        match m.pluginsMenuItems[m.selectedPluginsMenuItem].Action
        case StatePluginsBrowse =>
          (m.(state := StatePluginsBrowse, pluginsLoading := true, pluginsError := "", pluginsList := []), LoadPlugins)
        case StatePluginsInstalled =>
          (m.(state := StatePluginsInstalled, installedPluginsLoading := true, installedPluginsError := "",
              installedPluginsList := []), LoadInstalledPlugins)
        case _ => (m, NoCmd)
      else (m, NoCmd)
    else (m, NoCmd)
  }

  /** `updatePluginsBrowse`. "ctrl+c"/"q" quit; Esc returns to the plugins
    * menu with the search undone; "up"/"down" move within the shown list;
    * Enter or Space opens the details of a selected plugin; "/" opens the
    * search with an empty query. */
  function UpdatePluginsBrowse(m: Model, key: string): (r: (Model, Cmd))
    ensures key == "ctrl+c" || key == "q" ==> r == (m, Quit)
    ensures key == "esc" ==>
              r == (m.(state := StatePluginsMenu, pluginSearchQuery := "", filteredPluginsList := m.pluginsList,
                       selectedPluginIndex := 0), NoCmd)
    ensures key == "up" || key == "k" ==>
              r == (m.(selectedPluginIndex := MoveUp(m.selectedPluginIndex)), NoCmd)
    ensures key == "down" || key == "j" ==>
              r == (m.(selectedPluginIndex := MoveDown(m.selectedPluginIndex, |m.filteredPluginsList|)), NoCmd)
    ensures key == "enter" || key == " " ==>
              r.1 == NoCmd
              && (m.selectedPluginIndex < |m.filteredPluginsList| ==> r.0 == m.(state := StatePluginDetail))
              && (m.selectedPluginIndex >= |m.filteredPluginsList| ==> r.0 == m)
    ensures key == "/" ==> r == (m.(state := StatePluginSearch, pluginSearchQuery := ""), NoCmd)
    ensures key !in {"ctrl+c", "q", "esc", "up", "k", "down", "j", "enter", " ", "/"} ==> r == (m, NoCmd)
    ensures InRange(m.selectedPluginIndex, |m.filteredPluginsList|) && key != "esc" ==>
              InRange(r.0.selectedPluginIndex, |r.0.filteredPluginsList|)
  {
    if key == "ctrl+c" || key == "q" then (m, Quit)
    else if key == "esc" then
      (m.(state := StatePluginsMenu, pluginSearchQuery := "", filteredPluginsList := m.pluginsList,
          selectedPluginIndex := 0), NoCmd)
    else if key == "up" || key == "k" then
      (m.(selectedPluginIndex := if m.selectedPluginIndex > 0 then m.selectedPluginIndex - 1 else m.selectedPluginIndex), NoCmd)
    else if key == "down" || key == "j" then
      (m.(selectedPluginIndex := if m.selectedPluginIndex < |m.filteredPluginsList| - 1
                                 then m.selectedPluginIndex + 1 else m.selectedPluginIndex), NoCmd)
    else if key == "enter" || key == " " then
      if m.selectedPluginIndex < |m.filteredPluginsList| then (m.(state := StatePluginDetail), NoCmd) else (m, NoCmd)
    else if key == "/" then (m.(state := StatePluginSearch, pluginSearchQuery := ""), NoCmd)
    else (m, NoCmd)
  }

  /** `updatePluginDetail`. "ctrl+c"/"q" quit; Esc returns to the browser;
    * "i" installs the selected plugin, but only when it is not installed
    * already. The model itself does not change otherwise. */
  function UpdatePluginDetail(m: Model, key: string): (r: (Model, Cmd))
    requires key == "i" ==> 0 <= m.selectedPluginIndex
    ensures key == "ctrl+c" || key == "q" ==> r == (m, Quit)
    ensures key == "esc" ==> r == (m.(state := StatePluginsBrowse), NoCmd)
    ensures key != "esc" ==> r.0 == m
    ensures r.1.InstallPlugin? <==>
              key == "i" && m.selectedPluginIndex < |m.filteredPluginsList|
              && !Flag(m.pluginInstallStatus, m.filteredPluginsList[m.selectedPluginIndex].Name)
    ensures r.1.InstallPlugin? ==> r.1.plugin == m.filteredPluginsList[m.selectedPluginIndex]
    ensures key !in {"ctrl+c", "q", "i"} ==> r.1 == NoCmd
  {
    if key == "ctrl+c" || key == "q" then (m, Quit)
    else if key == "esc" then (m.(state := StatePluginsBrowse), NoCmd)
    else if key == "i" && m.selectedPluginIndex < |m.filteredPluginsList| then
      var plugin := m.filteredPluginsList[m.selectedPluginIndex];
      if !Flag(m.pluginInstallStatus, plugin.Name) then (m, InstallPlugin(plugin)) else (m, NoCmd)
    else (m, NoCmd)
  }

  /** `updatePluginsInstalled`. "ctrl+c"/"q" quit; Esc returns to the
    * plugins menu; "up"/"down" move within the installed list; Enter or
    * Space opens the details of a selected plugin. */
  function UpdatePluginsInstalled(m: Model, key: string): (r: (Model, Cmd))
    ensures key == "ctrl+c" || key == "q" ==> r == (m, Quit)
    ensures key == "esc" ==> r == (m.(state := StatePluginsMenu), NoCmd)
    ensures key == "up" || key == "k" ==>
              r == (m.(selectedInstalledIndex := MoveUp(m.selectedInstalledIndex)), NoCmd)
    ensures key == "down" || key == "j" ==>
              r == (m.(selectedInstalledIndex := MoveDown(m.selectedInstalledIndex, |m.installedPluginsList|)), NoCmd)
    ensures key == "enter" || key == " " ==>
              r.1 == NoCmd
              && (m.selectedInstalledIndex < |m.installedPluginsList| ==> r.0 == m.(state := StatePluginInstalledDetail))
              && (m.selectedInstalledIndex >= |m.installedPluginsList| ==> r.0 == m)
    ensures key !in {"ctrl+c", "q", "esc", "up", "k", "down", "j", "enter", " "} ==> r == (m, NoCmd)
    ensures InRange(m.selectedInstalledIndex, |m.installedPluginsList|) ==>
              InRange(r.0.selectedInstalledIndex, |r.0.installedPluginsList|)
  {
    if key == "ctrl+c" || key == "q" then (m, Quit)
    else if key == "esc" then (m.(state := StatePluginsMenu), NoCmd)
    else if key == "up" || key == "k" then
      (m.(selectedInstalledIndex := if m.selectedInstalledIndex > 0 then m.selectedInstalledIndex - 1
                                    else m.selectedInstalledIndex), NoCmd)
    else if key == "down" || key == "j" then
      (m.(selectedInstalledIndex := if m.selectedInstalledIndex < |m.installedPluginsList| - 1
                                    then m.selectedInstalledIndex + 1 else m.selectedInstalledIndex), NoCmd)
    else if key == "enter" || key == " " then
      if m.selectedInstalledIndex < |m.installedPluginsList| then (m.(state := StatePluginInstalledDetail), NoCmd)
      else (m, NoCmd)
    else (m, NoCmd)
  }

  /** `updatePluginInstalledDetail`. "ctrl+c"/"q" quit; Esc returns to the
    * installed list; "u" uninstalls the selected plugin. */
  function UpdatePluginInstalledDetail(m: Model, key: string): (r: (Model, Cmd))
    requires key == "u" ==> 0 <= m.selectedInstalledIndex
    ensures key == "ctrl+c" || key == "q" ==> r == (m, Quit)
    ensures key == "esc" ==> r == (m.(state := StatePluginsInstalled), NoCmd)
    ensures key != "esc" ==> r.0 == m
    ensures r.1.UninstallPlugin? <==> key == "u" && m.selectedInstalledIndex < |m.installedPluginsList|
    ensures r.1.UninstallPlugin? ==> r.1.plugin == m.installedPluginsList[m.selectedInstalledIndex]
    ensures key !in {"ctrl+c", "q", "u"} ==> r.1 == NoCmd
  {
    if key == "ctrl+c" || key == "q" then (m, Quit)
    else if key == "esc" then (m.(state := StatePluginsInstalled), NoCmd)
    else if key == "u" && m.selectedInstalledIndex < |m.installedPluginsList| then
      (m, UninstallPlugin(m.installedPluginsList[m.selectedInstalledIndex]))
    else (m, NoCmd)
  }

  /** The registry form of each listed plugin. */
  function ToPlugins(ps: seq<PluginInfo>): (r: seq<Plugin>)
    ensures |r| == |ps| && forall i :: 0 <= i < |ps| ==> r[i] == ToPlugin(ps[i])
  {
    seq(|ps|, i requires 0 <= i < |ps| => ToPlugin(ps[i]))
  }

  /** The listed form of each registry plugin. */
  function ToPluginInfos(ps: seq<Plugin>): (r: seq<PluginInfo>)
    ensures |r| == |ps| && forall i :: 0 <= i < |ps| ==> r[i] == ToPluginInfo(ps[i])
  {
    seq(|ps|, i requires 0 <= i < |ps| => ToPluginInfo(ps[i]))
  }

  /** The browser's list for a query: the whole registry list for the empty
    * query, otherwise the fuzzy matches with the first-party plugins
    * moved to the front. */
  function SearchResults(query: string, list: seq<PluginInfo>): seq<PluginInfo>
  {
    if query == "" then list
    else
      var found := Sorting.Filter(ToPlugins(list), Matcher(ToLower(query)));
      ToPluginInfos(Sorting.Filter(found, IsFirstParty) + Sorting.Filter(found, Sorting.Not(IsFirstParty)))
  }

  /** For a non-empty query the results carry their computed first-party
    * mark, have every first-party plugin ahead of every other, and are no
    * more than the list. */
  lemma SearchResultsOrder(query: string, list: seq<PluginInfo>)
    requires query != ""
    ensures var r := SearchResults(query, list);
            |r| <= |list|
            && (forall i :: 0 <= i < |r| ==> r[i].FirstParty == HasPrefix(r[i].Repo, FirstPartyPrefix))
            && (forall i, j :: 0 <= i < j < |r| && r[j].FirstParty ==> r[i].FirstParty)
  {
    var found := Sorting.Filter(ToPlugins(list), Matcher(ToLower(query)));
    var sorted := Sorting.Filter(found, IsFirstParty) + Sorting.Filter(found, Sorting.Not(IsFirstParty));
    FirstPartyPartition(found);
    Sorting.FilterSplitsLength(found, IsFirstParty);
    assert SearchResults(query, list) == ToPluginInfos(sorted);
  }

  /** `x` is a listed plugin, in listed form, that matches the query. */
  predicate ListedMatch(query: string, list: seq<PluginInfo>, x: PluginInfo)
  {
    exists k :: 0 <= k < |list| && x == ToPluginInfo(ToPlugin(list[k]))
                && MatchesQuery(ToLower(query), ToPlugin(list[k]))
  }

  /** For a non-empty query every result is a listed plugin that matches
    * the query, in listed form. */
  lemma SearchResultsMatch(query: string, list: seq<PluginInfo>)
    requires query != ""
    ensures var r := SearchResults(query, list);
            forall i :: 0 <= i < |r| ==> ListedMatch(query, list, r[i])
  {
    var r := SearchResults(query, list);
    forall i | 0 <= i < |r|
      ensures ListedMatch(query, list, r[i])
    {
      ResultMatches(query, list, i);
    }
  }

  /** One result of a non-empty query is a listed plugin that matches. */
  lemma ResultMatches(query: string, list: seq<PluginInfo>, i: int)
    requires query != "" && 0 <= i < |SearchResults(query, list)|
    ensures ListedMatch(query, list, SearchResults(query, list)[i])
  {
    var raw := ToPlugins(list);
    var found := Sorting.Filter(raw, Matcher(ToLower(query)));
    var sorted := Sorting.Filter(found, IsFirstParty) + Sorting.Filter(found, Sorting.Not(IsFirstParty));
    var r := ToPluginInfos(sorted);
    assert SearchResults(query, list) == r;
    Sorting.FilterSplitsMultiset(found, IsFirstParty);
    assert multiset(sorted) == multiset(found);
    FoundIn(query, raw, found, sorted, i);
    var k :| 0 <= k < |raw| && raw[k] == sorted[i] && MatchesQuery(ToLower(query), raw[k]);
    assert r[i] == ToPluginInfo(ToPlugin(list[k]));
  }

  lemma FoundIn(query: string, raw: seq<Plugin>, found: seq<Plugin>, sorted: seq<Plugin>, i: int)
    requires query != "" && found == Sorting.Filter(raw, Matcher(ToLower(query)))
    requires multiset(sorted) == multiset(found) && 0 <= i < |sorted|
    ensures exists k :: 0 <= k < |raw| && raw[k] == sorted[i] && MatchesQuery(ToLower(query), raw[k])
  {
    assert sorted[i] in multiset(sorted);
    assert sorted[i] in found;
    SearchMembers(query, raw, sorted[i]);
  }

  /** `filterPlugins`: the browser's list becomes the results for the
    * current query, with the first entry selected. The conversions to and
    * from the registry form and the sort work on arrays, as the source's
    * slices do. */
  method FilterPlugins(m: Model) returns (r: Model)
    ensures r == m.(filteredPluginsList := SearchResults(m.pluginSearchQuery, m.pluginsList), selectedPluginIndex := 0)
  {
    if m.pluginSearchQuery == "" {
      return m.(filteredPluginsList := m.pluginsList, selectedPluginIndex := 0);
    }
    var n := |m.pluginsList|;
    var rawPlugins := new Plugin[n](i requires 0 <= i < n => ToPlugin(m.pluginsList[i]));
    assert rawPlugins[..] == ToPlugins(m.pluginsList);
    var searchResults := FuzzySearch(m.pluginSearchQuery, rawPlugins[..]);
    var sorted := new Plugin[|searchResults|](i requires 0 <= i < |searchResults| => searchResults[i]);
    assert sorted[..] == searchResults;
    SortByFirstParty(sorted);
    var filtered := ListForm(sorted[..]);
    return m.(filteredPluginsList := filtered, selectedPluginIndex := 0);
  }

  /** The conversion loop of `filterPlugins`: each search result in
    * listed form, in order. */
  method ListForm(ps: seq<Plugin>) returns (filtered: seq<PluginInfo>)
    ensures filtered == ToPluginInfos(ps)
  {
    filtered := [];
    var i := 0;
    while i < |ps|
      invariant 0 <= i <= |ps|
      invariant filtered == ToPluginInfos(ps[..i])
    {
      ListFormStep(ps, i);
      filtered := filtered + [ToPluginInfo(ps[i])];
      i := i + 1;
    }
    assert ps[..i] == ps;
  }

  lemma ListFormStep(ps: seq<Plugin>, i: nat)
    requires i < |ps|
    ensures ToPluginInfos(ps[..i + 1]) == ToPluginInfos(ps[..i]) + [ToPluginInfo(ps[i])]
  {
  }

  /** `updatePluginSearch`. "ctrl+c" quits; Esc returns to the browser with
    * the search undone; Enter returns to the browser showing the results
    * of the query; Backspace drops the query's last character if there is
    * one; any other single-character key is appended to the query. */
  method UpdatePluginSearch(m: Model, key: string) returns (r: Model, cmd: Cmd)
    ensures key == "ctrl+c" ==> r == m && cmd == Quit
    ensures key != "ctrl+c" ==> cmd == NoCmd
    ensures key == "esc" ==>
              r == m.(state := StatePluginsBrowse, pluginSearchQuery := "", filteredPluginsList := m.pluginsList,
                      selectedPluginIndex := 0)
    ensures key == "enter" ==>
              r == m.(state := StatePluginsBrowse, filteredPluginsList := SearchResults(m.pluginSearchQuery, m.pluginsList),
                      selectedPluginIndex := 0)
    ensures key == "backspace" ==>
              r == m.(pluginSearchQuery := r.pluginSearchQuery)
              && (m.pluginSearchQuery == "" ==> r.pluginSearchQuery == "")
              && (m.pluginSearchQuery != "" ==>
                    r.pluginSearchQuery + [m.pluginSearchQuery[|m.pluginSearchQuery| - 1]] == m.pluginSearchQuery)
    ensures key !in {"ctrl+c", "esc", "enter", "backspace"} ==>
              r == m.(pluginSearchQuery := if |key| == 1 then m.pluginSearchQuery + key else m.pluginSearchQuery)
  {
    r, cmd := m, NoCmd;
    if key == "ctrl+c" {
      cmd := Quit;
    } else if key == "esc" {
      r := m.(state := StatePluginsBrowse, pluginSearchQuery := "", filteredPluginsList := m.pluginsList,
              selectedPluginIndex := 0);
    } else if key == "enter" {
      r := FilterPlugins(m.(state := StatePluginsBrowse));
    } else if key == "backspace" {
      if |m.pluginSearchQuery| > 0 {
        r := m.(pluginSearchQuery := m.pluginSearchQuery[..|m.pluginSearchQuery| - 1]);
      }
    } else if |key| == 1 {
      r := m.(pluginSearchQuery := m.pluginSearchQuery + key);
    }
  }
}
