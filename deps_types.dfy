/** The dependency records shared by the installer, the distribution
  * back-ends and the management menu. */
module DepsTypes {
  /** How far a dependency is from usable; the declaration order gives the
    * integer codes 0 to 3 that the source compares. */
  datatype DependencyStatus = StatusMissing | StatusInstalled | StatusNeedsUpdate | StatusNeedsReinstall

  /** The integer code of a status. */
  function Rank(s: DependencyStatus): (r: nat)
    ensures r <= 3
    ensures s == StatusMissing <==> r == 0
  {
    match s
    case StatusMissing => 0
    case StatusInstalled => 1
    case StatusNeedsUpdate => 2
    case StatusNeedsReinstall => 3
  }

  /** Distinct statuses have distinct codes, so comparing codes orders the
    * statuses totally. */
  lemma RankInjective(a: DependencyStatus, b: DependencyStatus)
    requires Rank(a) == Rank(b)
    ensures a == b
  {
  }

  datatype PackageVariant = VariantStable | VariantGit

  datatype Dependency = Dependency(
    Name: string, Status: DependencyStatus, Version: string, Description: string,
    Required: bool, Variant: PackageVariant, CanToggle: bool)

  datatype WindowManager = WindowManagerHyprland | WindowManagerNiri

  /** `deps.Terminal`, an integer enumeration: values other than the three
    * named ones can be passed. */
  type Terminal = int
  const TerminalGhostty: Terminal := 0
  const TerminalKitty: Terminal := 1
  const TerminalAlacritty: Terminal := 2
}
