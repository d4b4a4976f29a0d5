/** The management menu's model: its screens, the parts of its state that
  * the update and plugin screens read and write, and the commands they
  * hand back to the event loop. The sub-processes, channels, spinner and
  * window size are not part of this model. */
module DmsModel {
  import opened Common
  import opened DmsDetector
  import opened Strs
  import opened PluginsSearch

  datatype AppState =
    | StateMainMenu | StateUpdate | StateUpdatePassword | StateUpdateProgress | StateShell
    | StatePluginsMenu | StatePluginsBrowse | StatePluginDetail | StatePluginSearch
    | StatePluginsInstalled | StatePluginInstalledDetail | StateGreeterMenu
    | StateGreeterCompositorSelect | StateGreeterPassword | StateGreeterInstalling | StateAbout

  /** A plugin as the menu lists it. */
  datatype PluginInfo = PluginInfo(
    ID: string, Name: string, Category: string, Author: string, Description: string,
    Repo: string, Path: string, Capabilities: seq<string>, Compositors: seq<string>,
    Dependencies: seq<string>, FirstParty: bool)

  datatype MenuItem = MenuItem(Label: string, Action: AppState)

  /** A progress report of the running update; the completion fraction (a
    * float) is not modelled. */
  datatype UpdateProgress = UpdateProgress(step: string, complete: bool, err: Option<string>, logOutput: string)

  /** The zero report. */
  const NoProgress := UpdateProgress("", false, None, "")

  datatype Model = Model(
    state: AppState,
    updateDeps: seq<DependencyInfo>,
    selectedUpdateDep: int,
    updateToggles: map<string, bool>,
    updateProgress: UpdateProgress,
    updateLogs: seq<string>,
    sudoPassword: string,
    passwordInput: string,
    passwordError: string,
    niriInstalled: bool,
    pluginsMenuItems: seq<MenuItem>,
    selectedPluginsMenuItem: int,
    pluginsList: seq<PluginInfo>,
    filteredPluginsList: seq<PluginInfo>,
    selectedPluginIndex: int,
    pluginsLoading: bool,
    pluginsError: string,
    pluginSearchQuery: string,
    installedPluginsList: seq<PluginInfo>,
    selectedInstalledIndex: int,
    installedPluginsLoading: bool,
    installedPluginsError: string,
    pluginInstallStatus: map<string, bool>)

  /** The commands the screens hand back; the ones that run a sub-process
    * carry what it is given. */
  datatype Cmd =
    | NoCmd
    | Quit
    | LoadPlugins
    | LoadInstalledPlugins
    | InstallPlugin(plugin: PluginInfo)
    | UninstallPlugin(plugin: PluginInfo)
    | ValidatePassword(password: string)

  /** A Go map lookup of a boolean: a missing key reads as false. */
  function Flag(m: map<string, bool>, k: string): bool
  {
    k in m && m[k]
  }

  /** The registry form of a listed plugin (the fields the menu does not
    * keep are empty). */
  function ToPlugin(p: PluginInfo): Plugin
  {
    Plugin(p.ID, p.Name, p.Capabilities, p.Category, p.Repo, p.Path, p.Author, p.Description,
           p.Dependencies, p.Compositors, [], "")
  }

  /** The listed form of a registry plugin, with its first-party mark
    * computed from the repository address. */
  function ToPluginInfo(p: Plugin): (r: PluginInfo)
    ensures r.FirstParty <==> IsFirstParty(p)
    ensures r.Repo == p.Repo && r.ID == p.ID && r.Name == p.Name
  {
    PluginInfo(p.ID, p.Name, p.Category, p.Author, p.Description, p.Repo, p.Path,
               p.Capabilities, p.Compositors, p.Dependencies, HasPrefix(p.Repo, FirstPartyPrefix))
  }

  /** Going to the registry form and back keeps everything the menu lists
    * and recomputes the first-party mark. */
  lemma PluginRoundTrip(p: PluginInfo)
    ensures ToPluginInfo(ToPlugin(p)) == p.(FirstParty := HasPrefix(p.Repo, FirstPartyPrefix))
  {
  }
}
