/** The installer wizard's state: the screens it moves through and the parts
  * of its model that the package-installation and configuration screens
  * read and write. Spinner, styles, text input and channels are not part of
  * this model. */
module TuiModel {
  import opened Common

  datatype ApplicationState =
    | StateWelcome | StateSelectWindowManager | StateSelectTerminal | StateMissingWMInstructions
    | StateDetectingDeps | StateDependencyReview | StateAuthMethodChoice | StateFingerprintAuth
    | StatePasswordPrompt | StateInstallingPackages | StateConfigConfirmation | StateDeployingConfigs
    | StateInstallComplete | StateFinalComplete | StateError

  /** A progress report of the package installer; the completion fraction
    * (a float) is not modelled. */
  datatype PackageProgress = PackageProgress(
    step: string, isComplete: bool, needsSudo: bool, commandInfo: string,
    logOutput: string, error: Option<string>)

  /** One configuration file the deployer may overwrite. */
  datatype ExistingConfigInfo = ExistingConfigInfo(ConfigType: string, Path: string, Exists: bool)

  /** The messages the two screens react to. */
  datatype Msg =
    | PackageProgressMsg(progress: PackageProgress)
    | ConfigCheckResult(configs: seq<ExistingConfigInfo>, error: Option<string>)
    | KeyMsg(key: string)
    | OtherMsg

  /** The commands a screen hands back to the event loop. */
  datatype Cmd =
    | NoCmd
    | ListenForPackageProgress
    | ListenForLogs
    | TickAndCheckExistingConfigurations
    | DeployConfigurations

  /** The wizard model. The source passes it by value, but its maps are
    * shared between copies and the event loop keeps only the returned copy,
    * so an update behaves as an update in place. */
  class Model {
    var state: ApplicationState
    var err: Option<string>
    var isLoading: bool
    var packageProgress: PackageProgress
    var installationLogs: seq<string>
    var selectedConfig: int
    var replaceConfigs: map<string, bool>
    var existingConfigs: seq<ExistingConfigInfo>

    /** `NewModel`, for the fields modelled here. */
    constructor ()
      ensures state == StateWelcome && err == None && isLoading
      ensures packageProgress == PackageProgress("Initializing package installation", false, false, "", "", None)
      ensures installationLogs == [] && selectedConfig == 0
      ensures replaceConfigs == map[] && existingConfigs == []
    {
      state := StateWelcome;
      err := None;
      isLoading := true;
      packageProgress := PackageProgress("Initializing package installation", false, false, "", "", None);
      installationLogs := [];
      selectedConfig := 0;
      replaceConfigs := map[];
      existingConfigs := [];
    }
  }

  /** A Go map lookup of a boolean: a missing key reads as false. */
  function Flag(m: map<string, bool>, k: string): bool
  {
    k in m && m[k]
  }
}
