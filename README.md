# A verified model of the dotfiles' desktop shell pieces

This project models, in Dafny, the logic at the heart of three parts of a
set of desktop configurations:

- **The AGS widget layer**:
  - `api/widgets.js` builds every widget from a shared set of base properties plus the caller's own.
  - `windows/bar.js` toggles the workspace button classes and picks the network, volume, backlight and battery icons by tier.
  - `windows/runner.js` launches an application from the runner prompt when exactly one matches.
- **The `dms-cli` backend** (DankMaterialShell's installer and server):
  - Hyprland keybind parsing and version comparison.
  - Distro package planning: the Arch categoriser, the quickshell version gate, git tag parsing, os-release classification and the distro registry.
  - The network layer: WiFi sorting and channels, change detection, the prompt broker, the iwd and NetworkManager state machines, agent secrets, priorities, networkd link selection and hybrid merging.
  - The brightness layer: sysfs and DDC/CI conversions, the DDC checksum and framing, device filters, sorting and clamping.
  - Plugin search, the wayland and dwl state snapshots, and CUPS decoding and change detection.
  - loginctl lock and sleep bookkeeping, bluez device partitioning and pairing bookkeeping.
  - The TUI state machines (features, plugins, installer, config confirmation) and text wrapping.
  - The config deployer's merge of monitor and output sections, the greeter's greetd rewrite and sudo quoting, the dank16 terminal palette writers, log levels and `Clamp`.
- **`sl-darken`**: packing and unpacking of 24-bit RGB colours.

There is one Dafny module per source file. Pure Go and JavaScript logic
becomes datatypes, functions and lemmas. Objects that the source updates in
place (the subscription brokers, the loginctl and bluez managers, the
runner, the DDC pending map, the installer TUI's model) become classes whose
methods state their whole new state; the management menu's model, which the source
copies by value in each update, is a datatype. Loops become methods with invariants, proved
against a specification function. `Common` (Option/Result and small set
facts) and `Strs` (the Go `strings` and `strconv` helpers the source uses)
are shared.

## Model

| member | source | states |
|---|---|---|
| AgsWidgets.Or | archlinux/home/frontear/.config/ags/api/widgets.js:59 | the JavaScript or-operator yields its left operand exactly when that is truthy, otherwise its right one |
| AgsWidgets.Get | archlinux/home/frontear/.config/ags/api/widgets.js:54 | a destructured parameter is the caller's value when given and `undefined` otherwise |
| AgsWidgets.SpreadLaws | archlinux/home/frontear/.config/ags/api/widgets.js:54-71 | an object spread has exactly the keys of its sources, and each key takes its value from the last source that has it |
| AgsWidgets.BaseKeysComplete | archlinux/home/frontear/.config/ags/api/widgets.js:4-52 | the baseline key list names every baseline property |
| AgsWidgets.BaseProperties | archlinux/home/frontear/.config/ags/api/widgets.js:4-52 | the baseline sets exactly the baseline names: hpack/vpack "center", expand false, hexpand true, vexpand false, visible true, sensitive true, no tooltip, null properties/connections/binds/setup |
| AgsWidgets.Pick | archlinux/home/frontear/.config/ags/api/widgets.js:73-77 | the parameters a factory sets back carry the caller's value or `undefined` |
| AgsWidgets.MakeLaws | archlinux/home/frontear/.config/ags/api/widgets.js:54-71 | for any factory built as baseline, then own defaults, then `...rest`: caller properties that are not destructured win; parameters set back are present with the caller's value; baseline names nobody overrides keep their baseline value |
| AgsWidgets.MakeOwn | archlinux/home/frontear/.config/ags/api/widgets.js:54-71 | an own default the caller does not override is kept |
| AgsWidgets.MakeCaller | archlinux/home/frontear/.config/ags/api/widgets.js:70 | a caller property that is not destructured (or is set back) keeps the caller's value: the override wins |
| AgsWidgets.MakeBase | archlinux/home/frontear/.config/ags/api/widgets.js:55 | a baseline name that neither the caller nor the kind sets keeps its baseline value |
| AgsWidgets.MakeDrops | archlinux/home/frontear/.config/ags/api/widgets.js:54 | a destructured key the factory does not set back is absent from the result |
| AgsWidgets.BoxForwards | archlinux/home/frontear/.config/ags/api/widgets.js:54-71 | `Box` forwards every caller property except `children` and keeps the baseline the caller does not override |
| AgsWidgets.BoxOwnDefaults | archlinux/home/frontear/.config/ags/api/widgets.js:58-59 | box children are `[]` when missing or falsy, and `vertical` is false unless overridden |
| AgsWidgets.ButtonForwards | archlinux/home/frontear/.config/ags/api/widgets.js:73-110 | `Button` forwards every caller property, sets its child back as given and keeps the non-overridden baseline |
| AgsWidgets.ButtonOwnDefaults | archlinux/home/frontear/.config/ags/api/widgets.js:78-88 | every click/hover/scroll callback the caller does not set is null |
| AgsWidgets.CenterBoxForwards | archlinux/home/frontear/.config/ags/api/widgets.js:112-140 | `CenterBox` forwards every caller property and sets the start/center/end widgets back unchanged |
| AgsWidgets.CenterBoxOwnDefaults | archlinux/home/frontear/.config/ags/api/widgets.js:116-120 | a center box has `children` `[]` and `halign` "fill" unless overridden |
| AgsWidgets.Entry | archlinux/home/frontear/.config/ags/api/widgets.js:142-201 | `Entry` is exactly the caller's properties: no baseline name is added |
| AgsWidgets.LabelForwards | archlinux/home/frontear/.config/ags/api/widgets.js:203-235 | `Label` forwards every caller property except `label` and keeps the non-overridden baseline |
| AgsWidgets.LabelTextFallback | archlinux/home/frontear/.config/ags/api/widgets.js:216 | a label's text is the caller's when truthy and "" otherwise |
| AgsWidgets.LabelOwnDefaults | archlinux/home/frontear/.config/ags/api/widgets.js:207-232 | justification "center", truncate "end" and wrap false unless overridden |
| AgsWidgets.ProgressBarForwards | archlinux/home/frontear/.config/ags/api/widgets.js:237-255 | `ProgressBar` forwards every caller property and sets `value` back as given |
| AgsWidgets.ProgressBarOwnDefaults | archlinux/home/frontear/.config/ags/api/widgets.js:241 | a progress bar has `halign` "fill" unless overridden |
| AgsWidgets.ExclusivityOf | archlinux/home/frontear/.config/ags/api/widgets.js:265 | the exclusivity is "exclusive" iff the `exclusive` flag is truthy, else "ignore" |
| AgsWidgets.WindowForwards | archlinux/home/frontear/.config/ags/api/widgets.js:258-308 | `Window` forwards every caller property except `exclusive` and sets child, name and anchor back as given |
| AgsWidgets.WindowKeeps | archlinux/home/frontear/.config/ags/api/widgets.js:307 | any caller property other than `exclusive` is passed on with the caller's value |
| AgsWidgets.WindowDropsExclusive | archlinux/home/frontear/.config/ags/api/widgets.js:258 | the `exclusive` flag itself does not reach the widget |
| AgsWidgets.WindowBaseline | archlinux/home/frontear/.config/ags/api/widgets.js:259 | a window keeps the baseline the caller does not override |
| AgsWidgets.WindowExclusivity | archlinux/home/frontear/.config/ags/api/widgets.js:265 | a window's exclusivity is "exclusive" exactly when `exclusive` is truthy, unless the caller sets `exclusivity` itself |
| AgsWidgets.WindowLayer | archlinux/home/frontear/.config/ags/api/widgets.js:267 | the layer is "top" unless overridden |
| AgsWidgets.WindowMargins | archlinux/home/frontear/.config/ags/api/widgets.js:268 | the margins are `[]` unless overridden |
| AgsWidgets.BaselineWithoutOverrides | archlinux/home/frontear/.config/ags/api/widgets.js:4-52 | with no caller properties, every factory but `Entry` gives each baseline name its baseline value |
| AgsWidgets.KindDefaultsWithoutOverrides | archlinux/home/frontear/.config/ags/api/widgets.js:59-216 | with no caller properties, a box has no children and a label shows "" |
| AgsWidgets.WindowWithoutOverrides | archlinux/home/frontear/.config/ags/api/widgets.js:142-265 | with no caller properties, a window ignores exclusivity and an entry is empty |
| AgsBar.TierIndex | archlinux/home/frontear/.config/ags/windows/bar.js:78-121 | a chain of `x >= t ? icon : ...` picks the first threshold the reading reaches, or the last icon when it reaches none or is missing |
| AgsBar.DescendingPairs | archlinux/home/frontear/.config/ags/windows/bar.js:78-118 | in falling thresholds each later threshold is below every earlier one |
| AgsBar.TierBucket | archlinux/home/frontear/.config/ags/windows/bar.js:78-121 | with falling thresholds a reading is in tier i exactly when it reaches threshold i and is below threshold i-1 |
| AgsBar.TierMonotone | archlinux/home/frontear/.config/ags/windows/bar.js:78-121 | a larger reading never lands in a lower tier |
| AgsBar.TierMissing | archlinux/home/frontear/.config/ags/windows/bar.js:76-78 | an undefined reading (`Network.wifi?.strength` absent) fails every comparison and takes the last icon |
| AgsBar.NetworkIconCases | archlinux/home/frontear/.config/ags/windows/bar.js:71-83 | "wired" shows the wired icon, any state other than "wired"/"wifi" the disconnected icon, and "wifi" the tier at 80/60/40/20 |
| AgsBar.NetworkIcon | archlinux/home/frontear/.config/ags/windows/bar.js:71-83 | the icon is the wired icon, the disconnected icon or a Wi-Fi tier icon, and a Wi-Fi tier icon exactly when the primary connection is Wi-Fi |
| AgsBar.VolumeIconCases | archlinux/home/frontear/.config/ags/windows/bar.js:90-97 | mute overrides the level; otherwise the tier at 66/33 |
| AgsBar.VolumeIcon | archlinux/home/frontear/.config/ags/windows/bar.js:90-97 | the icon is the muted icon exactly when the sink is muted, and otherwise one of the three level icons |
| AgsBar.BacklightDescending | archlinux/home/frontear/.config/ags/windows/bar.js:105 | the backlight thresholds fall from 95 to 10 in steps |
| AgsBar.BacklightIconsDistinctEnds | archlinux/home/frontear/.config/ags/windows/bar.js:105 | only the first tier has the full-brightness icon and only the last the dark one |
| AgsBar.BacklightIconOrder | archlinux/home/frontear/.config/ags/windows/bar.js:105 | a brighter screen never shows a dimmer icon |
| AgsBar.BacklightIconEnds | archlinux/home/frontear/.config/ags/windows/bar.js:105 | from 95% up the full icon, below 10% the dark one |
| AgsBar.BacklightIcon | archlinux/home/frontear/.config/ags/windows/bar.js:105 | the icon is always one of the eleven brightness icons |
| AgsBar.BatteryIconsNotCharged | archlinux/home/frontear/.config/ags/windows/bar.js:115-121 | no tier icon equals the charged icon |
| AgsBar.BatteryDescending | archlinux/home/frontear/.config/ags/windows/bar.js:118-121 | the battery thresholds fall from 98 to 10 |
| AgsBar.BatteryIconCases | archlinux/home/frontear/.config/ags/windows/bar.js:112-122 | charged overrides charging; charging and discharging use their own tables over the same thresholds 98,90,...,10 |
| AgsBar.BatteryIcon | archlinux/home/frontear/.config/ags/windows/bar.js:112-122 | the icon is the charged icon exactly when the battery is charged, and otherwise an icon of the charging table while charging and of the discharging table when not |
| AgsBar.BatteryAt55Charging | archlinux/home/frontear/.config/ags/windows/bar.js:118 | a charging battery at 55% shows the 50% charging icon |
| AgsBar.TitleFallback | archlinux/home/frontear/.config/ags/windows/bar.js:55 | a non-empty title is shown as is, a missing or empty title shows "...", so the label is never blank |
| AgsBar.BarLabel.constructor | archlinux/home/frontear/.config/ags/windows/bar.js:68-124 | a label starts with the given text |
| AgsBar.BarLabel.OnNetworkChanged | archlinux/home/frontear/.config/ags/windows/bar.js:70-84 | the network callback sets the label to the network icon of the new state |
| AgsBar.BarLabel.OnAudioChanged | archlinux/home/frontear/.config/ags/windows/bar.js:89-98 | the audio callback sets the label to the volume icon |
| AgsBar.BarLabel.OnBacklightChanged | archlinux/home/frontear/.config/ags/windows/bar.js:103-106 | the backlight callback sets the label to the backlight icon |
| AgsBar.BarLabel.OnBatteryChanged | archlinux/home/frontear/.config/ags/windows/bar.js:111-123 | the battery callback sets the label to the battery icon |
| AgsBar.ToggleClass | archlinux/home/frontear/.config/ags/windows/bar.js:29-30 | `toggleClassName(name, on)` leaves the class present exactly when `on`, and no other class changes |
| AgsBar.RefreshedClasses | archlinux/home/frontear/.config/ags/windows/bar.js:28-31 | after a change a button has "exists" iff its workspace exists and "active" iff it is the active workspace; its other classes and its workspace are untouched |
| AgsBar.Workspaces.constructor | archlinux/home/frontear/.config/ags/windows/bar.js:19-21 | the workspace box starts empty |
| AgsBar.Workspaces.Populate | archlinux/home/frontear/.config/ags/windows/bar.js:24-38 | the setup loop appends one button per workspace 1..10, in order |
| AgsBar.Workspaces.OnChanged | archlinux/home/frontear/.config/ags/windows/bar.js:28-31 | a compositor change refreshes every button and keeps their number |
| AgsBar.NewButtonsNumbered | archlinux/home/frontear/.config/ags/windows/bar.js:24-27 | exactly ten buttons, for workspaces 1 to 10 in order, each with only the "workspace" class |
| AgsBar.RefreshedNewButtons | archlinux/home/frontear/.config/ags/windows/bar.js:24-31 | after a refresh exactly the buttons of existing workspaces carry "exists" and only the active workspace's button carries "active" |
| AgsBar.HyprBarFills | archlinux/home/frontear/.config/ags/windows/bar.js:150 | the bar's `hpack` is "fill", overriding the centred baseline |
| AgsBar.HyprBarNamed | archlinux/home/frontear/.config/ags/windows/bar.js:156 | the bar is named "hyprbar" |
| AgsBar.HyprBarAnchored | archlinux/home/frontear/.config/ags/windows/bar.js:157 | the bar is anchored top, left and right |
| AgsBar.HyprBarExclusive | archlinux/home/frontear/.config/ags/windows/bar.js:158 | the bar's exclusivity is "exclusive" |
| AgsBar.HyprBarDropsExclusive | archlinux/home/frontear/.config/ags/windows/bar.js:158 | the `exclusive` flag is not passed to the toolkit |
| AgsBar.HyprBarLayerAndMargins | archlinux/home/frontear/.config/ags/windows/bar.js:161-162 | the layer is "top" and the margins are [g, g, 0, g] for the outer gap g |
| AgsRunner.Accept | nixos/programs/ags/windows/runner.js:18-25 | more than one match is refused, none throws on `app[0]`, exactly one is launched, and it is the match |
| AgsRunner.Started | nixos/programs/ags/windows/runner.js:25 | an outcome starts at most one application, the launched one |
| AgsRunner.Logged | nixos/programs/ags/windows/runner.js:20-21 | only a refusal logs, and it logs "Too many applications to handle" |
| AgsRunner.Runner.constructor | nixos/programs/ags/windows/runner.js:15-52 | the entry starts empty and the runner window closed |
| AgsRunner.Runner.OnAccept | nixos/programs/ags/windows/runner.js:17-29 | the outcome is `Accept` of the service's answer; only a launch appends the app, clears the text and closes "hyprrunner"; a refusal only logs; a throw changes nothing |
| AgsRunner.AcceptStartsUniqueMatch | nixos/programs/ags/windows/runner.js:18-25 | at most one application starts per accept, and only when there is exactly one match, which is the one started |
| AgsRunner.RunLabelPrompt | nixos/programs/ags/windows/runner.js:7-13 | the prompt reads "Run> " |
| AgsRunner.RunLabelKeepsWidth | nixos/programs/ags/windows/runner.js:10 | the prompt's `hexpand` is false, overriding the baseline |
| AgsRunner.InputWithoutBaseline | nixos/programs/ags/windows/runner.js:15-31 | the entry holds exactly its own properties, with no baseline name |
| AgsRunner.RunnerBoxChildren | nixos/programs/ags/windows/runner.js:37-40 | the box holds the prompt, then the entry |
| AgsRunner.RunnerBoxWidth | nixos/programs/ags/windows/runner.js:35 | the box is 30% of the monitor width wide |
| AgsRunner.HyprRunnerHidden | nixos/programs/ags/windows/runner.js:44 | the runner window starts hidden |
| AgsRunner.HyprRunnerNamed | nixos/programs/ags/windows/runner.js:46 | the window is named "hyprrunner", the name `onAccept` closes |
| AgsRunner.HyprRunnerOverlay | nixos/programs/ags/windows/runner.js:50 | the window is on the "overlay" layer |
| AgsRunner.HyprRunnerIgnored | nixos/programs/ags/windows/runner.js:48 | the window's exclusivity is "ignore" |
| AgsRunner.HyprRunnerFocusable | nixos/programs/ags/windows/runner.js:49 | the window is focusable |
| AgsRunner.HyprRunnerPopup | nixos/programs/ags/windows/runner.js:51 | the window is a popup |
| SlDarken.ToU32 | pkgs/sl-darken/src/lib.rs:12-14 | the packed value is below 2^24, and its bytes at bits 16-23, 8-15 and 0-7 are red, green and blue |
| SlDarken.FromU32 | pkgs/sl-darken/src/lib.rs:4-10 | red, green and blue are the pixel's bytes at bits 16-23, 8-15 and 0-7; the top byte is ignored |
| SlDarken.FromToU32 | pkgs/sl-darken/src/lib.rs:4-14 | unpacking a packed colour gives the same three channels back |
| SlDarken.ToFromU32 | pkgs/sl-darken/src/lib.rs:4-14 | packing an unpacked pixel gives its low 24 bits: the alpha byte is dropped |
| UtilsMath.Clamp | nix/inputs/dms-cli/internal/utils/math.go:5-13 | with lo <= hi the result lies in [lo, hi], and equals the value when the value is already in range |
| UtilsMath.ClampCases | nix/inputs/dms-cli/internal/utils/math.go:6-12 | below min gives min, above max gives max, otherwise the value itself (also when min > max, where the min test comes first) |
| UtilsMath.ClampIdempotent | nix/inputs/dms-cli/internal/utils/math.go:5-13 | clamping twice is clamping once |
| UtilsMath.ClampMonotone | nix/inputs/dms-cli/internal/utils/math.go:5-13 | clamping preserves the order of values |
| DmsLog.Rank | nix/inputs/dms-cli/internal/log/log.go:26-41 | the level ranks are debug < info < warn < error < fatal |
| DmsLog.ParseLogLevel | nix/inputs/dms-cli/internal/log/log.go:26-41 | each of the five level names, in any case, parses to the level of that name; "warning" parses to warn; a setting parses to something other than info only when it is one of the recognised names |
| DmsLog.ParseLevelName | nix/inputs/dms-cli/internal/log/log.go:26-41 | each level's name, in any letter case, parses back to that level |
| DmsLog.ParseIgnoresCase | nix/inputs/dms-cli/internal/log/log.go:27 | a setting and its lower-cased form parse to the same level |
| DmsLog.ParseUnknownIsInfo | nix/inputs/dms-cli/internal/log/log.go:26-41 | a setting parses to something other than info only when it is one of "debug", "warn", "warning", "error", "fatal" in some case |
| DmsLog.ToLowerIdempotent | nix/inputs/dms-cli/internal/log/log.go:27 | lower-casing is idempotent, so re-parsing a parsed name is stable |
| DmsLog.RulesFor | nix/inputs/dms-cli/internal/log/log.go:49-63 | a level switches off one Qt category per level below it, and exactly the categories of those lower levels |
| DmsLog.GetQtLoggingRules | nix/inputs/dms-cli/internal/log/log.go:43-66 | the rules are empty exactly when the level is debug in some case; with DMS_LOG_LEVEL unset they switch off only debug output |
| DmsLog.QtRulesFollowLevel | nix/inputs/dms-cli/internal/log/log.go:43-66 | for any value of DMS_LOG_LEVEL (empty read as "info") the Qt rules switch off exactly the categories below the level the Go logger uses, joined by ";"; debug gives "" |
| DmsLog.RulesGrowWithLevel | nix/inputs/dms-cli/internal/log/log.go:51-62 | a more severe level switches off a strict superset of the categories of a less severe one |
| DmsLog.RulesSplitBack | nix/inputs/dms-cli/internal/log/log.go:65 | splitting the joined rules at ";" gives the rule list back |
| HyprlandKeybinds.CommentIffKnown | nix/inputs/dms-cli/internal/hyprland/keybinds.go:90-196 | `autogenerateComment` gives "" exactly for the dispatchers it does not know |
| HyprlandKeybinds.DirectionalComments | nix/inputs/dms-cli/internal/hyprland/keybinds.go:95-169 | movewindow, movefocus and swapwindow name the direction of "l"/"r"/"u"/"d" and say "null" for any other parameter; movewindow without parameters is "Move window" |
| HyprlandKeybinds.WorkspaceStepComments | nix/inputs/dms-cli/internal/hyprland/keybinds.go:139-185 | "-1" is "left" for workspace and movetoworkspace, but movetoworkspacesilent describes both "+1" and "-1" as moving right |
| HyprlandKeybinds.SegmentStart | nix/inputs/dms-cli/internal/hyprland/keybinds.go:240-254 | the loop's start position `p` is just after the last separator seen, or 0 |
| HyprlandKeybinds.SplitMods | nix/inputs/dms-cli/internal/hyprland/keybinds.go:237-256 | the modifier loop returns exactly `ModList` of the trimmed modifier text |
| HyprlandKeybinds.KeepLong | nix/inputs/dms-cli/internal/hyprland/keybinds.go:250-252 | only segments longer than one character are kept, in order |
| HyprlandKeybinds.KeptSepFree | nix/inputs/dms-cli/internal/hyprland/keybinds.go:241-255 | appending text without separators keeps the closed segments and the start of the open one |
| HyprlandKeybinds.KeptClose | nix/inputs/dms-cli/internal/hyprland/keybinds.go:249-254 | a separator closes the open segment, which is kept if longer than one character |
| HyprlandKeybinds.ModsOfGlued | nix/inputs/dms-cli/internal/hyprland/keybinds.go:237-256 | the modifier text built from any segments and separators yields exactly its segments longer than one character, in order |
| HyprlandKeybinds.KeptSepSwap | nix/inputs/dms-cli/internal/hyprland/keybinds.go:243-247 | whether '+' or ' ' closes a segment makes no difference |
| HyprlandKeybinds.KeptShape | nix/inputs/dms-cli/internal/hyprland/keybinds.go:237-256 | every modifier read is longer than one character and holds no separator |
| HyprlandKeybinds.StartSepFree | nix/inputs/dms-cli/internal/hyprland/keybinds.go:253 | the open segment holds no separator |
| HyprlandKeybinds.ModListOfGlued | nix/inputs/dms-cli/internal/hyprland/keybinds.go:237-256 | the modifier list of any modifier text is its segments longer than one character: repeated separators and one-letter segments add nothing |
| HyprlandKeybinds.SplitKeyFields | nix/inputs/dms-cli/internal/hyprland/keybinds.go:214-227 | the keys part of a bind line splits into its first three fields and the rest of the text, commas included |
| HyprlandKeybinds.BindLineKeys | nix/inputs/dms-cli/internal/hyprland/keybinds.go:205-212 | the text after '=' is cut at its first '#' into keys and comment |
| HyprlandKeybinds.RestKeys | nix/inputs/dms-cli/internal/hyprland/keybinds.go:205-212 | the text after '=' splits into keys without '#' and the trimmed comment |
| HyprlandKeybinds.BindLineRoundTrip | nix/inputs/dms-cli/internal/hyprland/keybinds.go:198-265 | reading a bind line built from a head, fields and a comment gives the binding of those parts: first three fields trimmed, parameters rejoined with their commas and trimmed, mods split, comment or autogenerated comment |
| HyprlandKeybinds.FieldsExpected | nix/inputs/dms-cli/internal/hyprland/keybinds.go:214-235 | fields that agree with the parts give the expected binding |
| HyprlandKeybinds.NoEqualsNoBind | nix/inputs/dms-cli/internal/hyprland/keybinds.go:200-203 | a line without '=' yields no binding |
| HyprlandKeybinds.FewFieldsNoBind | nix/inputs/dms-cli/internal/hyprland/keybinds.go:214-217 | a keys part with fewer than three comma fields yields no binding |
| HyprlandKeybinds.HiddenNoBind | nix/inputs/dms-cli/internal/hyprland/keybinds.go:229-232 | a comment starting with "[hidden]" yields no binding |
| HyprlandKeybinds.UncommentedDescribed | nix/inputs/dms-cli/internal/hyprland/keybinds.go:233-235 | a binding without a comment gets `autogenerateComment(dispatcher, params)` |
| HyprlandKeybinds.LeadingHashes | nix/inputs/dms-cli/internal/hyprland/keybinds.go:273-275 | the count of leading '#' is at most the line length and every counted character is '#' |
| HyprlandKeybinds.HeadingDepth | nix/inputs/dms-cli/internal/hyprland/keybinds.go:273-275 | for a heading (`#+!` at column 0) the index of its first '!' is its number of '#', at least 1 |
| HyprlandKeybinds.Reads | nix/inputs/dms-cli/internal/hyprland/keybinds.go:293-306 | one reading per line |
| HyprlandKeybinds.ReadsAt | nix/inputs/dms-cli/internal/hyprland/keybinds.go:293-306 | each reading is that of its own line: a `#/#` line or a line whose trimmed text starts with "bind" gives its binding, any other line nothing |
| HyprlandKeybinds.Walk | nix/inputs/dms-cli/internal/hyprland/keybinds.go:267-312 | from a position past the end the section is returned as it stands; otherwise the walk ends no earlier than one line before its start and, because the shared reading position is stepped once more by every enclosing section, at most as far past the end as the number of lines it read |
| HyprlandKeybinds.EndOvershoot | nix/inputs/dms-cli/internal/hyprland/keybinds.go:267-312 | a configuration made of one heading leaves the reading position one past the end of the lines |
| HyprlandKeybinds.CloseStep | nix/inputs/dms-cli/internal/hyprland/keybinds.go:277-280 | a heading no deeper than the scope ends the section and steps the reader back one line |
| HyprlandKeybinds.LineStep | nix/inputs/dms-cli/internal/hyprland/keybinds.go:293-308 | a line that is no heading adds its binding, if any, and moves on |
| HyprlandKeybinds.OpenStep | nix/inputs/dms-cli/internal/hyprland/keybinds.go:282-291 | a deeper heading opens a child section named by the trimmed text after '!', parsed recursively at that depth and appended |
| HyprlandKeybinds.BindsFromStops | nix/inputs/dms-cli/internal/hyprland/keybinds.go:267-312 | a section stops only at the end of the lines or just before a heading no deeper than its own depth |
| HyprlandKeybinds.OpenAfter | nix/inputs/dms-cli/internal/hyprland/keybinds.go:282-291 | after a child section the parser resumes just after where the child stopped, with the child appended |
| HyprlandKeybinds.ReadLine | nix/inputs/dms-cli/internal/hyprland/keybinds.go:293-306 | reading a non-heading line adds its binding, if any |
| HyprlandKeybinds.FlatRun | nix/inputs/dms-cli/internal/hyprland/keybinds.go:270-309 | over lines without headings the parser stays in its section and appends their bindings in order |
| HyprlandKeybinds.EndsAtHeading | nix/inputs/dms-cli/internal/hyprland/keybinds.go:277-280 | a heading no deeper than the section hands the section back, positioned just before the heading |
| HyprlandKeybinds.LeafSection | nix/inputs/dms-cli/internal/hyprland/keybinds.go:273-291 | a deeper heading followed by heading-free lines up to the end or a shallower heading yields a child holding exactly those lines' bindings |
| HyprlandKeybinds.ChildOfLeaf | nix/inputs/dms-cli/internal/hyprland/keybinds.go:275-290 | a leaf heading's depth is its '#' count, and its child section holds the bindings of the lines up to where it stops |
| HyprlandKeybinds.LeafFill | nix/inputs/dms-cli/internal/hyprland/keybinds.go:270-309 | the lines after a heading, up to the stop, fill its section with their bindings |
| HyprlandKeybinds.RootReadsAll | nix/inputs/dms-cli/internal/hyprland/keybinds.go:314-322 | every heading has depth at least 1, so the root section at depth 0 never closes early |
| HyprlandKeybinds.FlatConfig | nix/inputs/dms-cli/internal/hyprland/keybinds.go:314-322 | a configuration without headings is one root section with the bindings of its lines, other lines skipped |
| HyprlandKeybinds.EndStep | nix/inputs/dms-cli/internal/hyprland/keybinds.go:270-311 | at the end of the lines the section is returned as it is |
| HyprlandKeybinds.Parser.constructor | nix/inputs/dms-cli/internal/hyprland/keybinds.go:37-42 | a new parser has no lines and reads from line 0 |
| HyprlandKeybinds.Parser.ReadContent | nix/inputs/dms-cli/internal/hyprland/keybinds.go:67-87 | no readable .conf file is `os.ErrNotExist`; otherwise the lines are those of the contents joined by newlines |
| HyprlandKeybinds.Parser.GetKeybindAtLine | nix/inputs/dms-cli/internal/hyprland/keybinds.go:198-265 | the binding read is `KeybindAt` of the current line |
| HyprlandKeybinds.Parser.ReadBindLine | nix/inputs/dms-cli/internal/hyprland/keybinds.go:293-306 | a `#/#` line or a "bind" line appends its binding, when it has one; any other line changes nothing |
| HyprlandKeybinds.Parser.GetBindsRecursive | nix/inputs/dms-cli/internal/hyprland/keybinds.go:267-312 | the section returned and the final reading position are those of `BindsFrom` |
| HyprlandKeybinds.Parser.OpenChild | nix/inputs/dms-cli/internal/hyprland/keybinds.go:282-291 | a deeper heading's child is read recursively, appended, and the parser goes on after it |
| HyprlandKeybinds.Parser.ParseKeys | nix/inputs/dms-cli/internal/hyprland/keybinds.go:314-322 | `ParseKeys` returns the root section of `ParseTree` of the lines read |
| Version.Parts | nix/inputs/dms-cli/internal/version/version.go:192-196 | the parts are the '.'-separated pieces of the version after one leading 'v' is dropped: at least one |
| Version.Component | nix/inputs/dms-cli/internal/version/version.go:204-210 | a missing part, or one without a leading integer, counts as 0; otherwise the integer `Sscanf("%d")` reads |
| Version.Padded | nix/inputs/dms-cli/internal/version/version.go:198-210 | padding gives exactly n components, the missing ones 0 |
| Version.LexCompare | nix/inputs/dms-cli/internal/version/version.go:203-220 | the result is -1, 0 or 1 |
| Version.CompareVersions | nix/inputs/dms-cli/internal/version/version.go:191-221 | the loop returns exactly the order `Compare` defines, and it is -1, 0 or 1 |
| Version.Compare | nix/inputs/dms-cli/internal/version/version.go:191-221 | the order is -1, 0 or 1 |
| Version.LexAntisymmetric | nix/inputs/dms-cli/internal/version/version.go:212-217 | the component order is antisymmetric and 0 exactly on equal sequences |
| Version.CompareReflexive | nix/inputs/dms-cli/internal/version/version.go:191-221 | every version equals itself |
| Version.CompareAntisymmetric | nix/inputs/dms-cli/internal/version/version.go:191-221 | swapping the operands negates the result |
| Version.CompareZeroIff | nix/inputs/dms-cli/internal/version/version.go:198-220 | two versions compare equal exactly when all components agree, missing ones counting as 0 |
| Version.LexFirstDifference | nix/inputs/dms-cli/internal/version/version.go:212-217 | the first differing component decides, numerically |
| Version.TrailingZeroPart | nix/inputs/dms-cli/internal/version/version.go:198-210 | a trailing zero part does not change the order |
| Version.TrailingZero | nix/inputs/dms-cli/internal/version/version.go:198-210 | "v1.0" equals "v1": appending ".0" leaves a version equal |
| Version.NumericOrder | nix/inputs/dms-cli/internal/version/version.go:212-217 | "v0.1.10" is later than "v0.1.2": components compare as numbers |
| Version.LeadingVIgnored | nix/inputs/dms-cli/internal/version/version.go:192-193 | "v1.2" and "1.2" are equal |
| Version.NewVersionInfo | nix/inputs/dms-cli/internal/version/version.go:168-186 | the info keeps the current and latest versions |
| Version.GetDMSVersionInfo | nix/inputs/dms-cli/internal/version/version.go:157-189 | an error finding the installed version is returned unchanged, one finding the latest is wrapped with "failed to get latest version: "; otherwise the info is `NewVersionInfo` |
| Version.Flags | nix/inputs/dms-cli/internal/version/version.go:171-173 | IsGit and IsBranch both mean the version contains '@'; IsTag means no '@' and a leading 'v'; never both branch and tag |
| Version.BranchUpdate | nix/inputs/dms-cli/internal/version/version.go:176-181 | "b@c" against "b'@c'" has an update exactly when the commits differ |
| Version.BranchWithoutLatestCommit | nix/inputs/dms-cli/internal/version/version.go:177-181 | a branch checkout has no update when the latest version does not split into two at '@' |
| Version.TagUpdate | nix/inputs/dms-cli/internal/version/version.go:182-183 | a tag has an update exactly when the latest version differs as text |
| Version.OtherNeverUpdated | nix/inputs/dms-cli/internal/version/version.go:184-185 | a version that is neither branch nor tag, such as "unknown", never has an update |
| DistrosBase.PartsOrder | nix/inputs/dms-cli/internal/distros/base.go:392-409 | the first differing part decides by byte-wise string order; a proper prefix is smaller; the result is -1, 0 or 1 |
| DistrosBase.VersionCompare | nix/inputs/dms-cli/internal/distros/base.go:388-410 | the loop returns exactly the order `PartsOrder` defines on the '.'-split parts |
| DistrosBase.PartsOrderAntisymmetric | nix/inputs/dms-cli/internal/distros/base.go:392-409 | swapping the operands flips the sign, and the order is 0 only on equal part lists |
| DistrosBase.VersionOrderZeroIff | nix/inputs/dms-cli/internal/distros/base.go:388-410 | `versionCompare` is 0 exactly on equal versions and is antisymmetric |
| DistrosBase.ShorterPrefixIsSmaller | nix/inputs/dms-cli/internal/distros/base.go:402-404 | a part list that is a proper prefix of another compares smaller |
| DistrosBase.TextualParts | nix/inputs/dms-cli/internal/distros/base.go:393-397 | parts compare as text, so "10" orders before "2" |
| DistrosBase.VariantOf | nix/inputs/dms-cli/internal/distros/base.go:287-290 | a git variant exactly when the version output contains "git" or "+" |
| DistrosBase.RunDotAt | nix/inputs/dms-cli/internal/distros/base.go:272 | the length of a match of a digit run then '.', or 0 when the text does not start with one |
| DistrosBase.TripleAt | nix/inputs/dms-cli/internal/distros/base.go:272 | the length of a match of three dot-separated digit runs, or 0 when there is none |
| DistrosBase.QuickshellVersionRead | nix/inputs/dms-cli/internal/distros/base.go:271-286 | a release "a.b.c" printed after "quickshell " is captured whole |
| DistrosBase.DetectQuickshell | nix/inputs/dms-cli/internal/distros/base.go:246-312 | the dependency is always the required, togglable "quickshell" one |
| DistrosBase.QuickshellStatus | nix/inputs/dms-cli/internal/distros/base.go:246-312 | missing without `qs`; needs reinstall when the command fails or no version is found; otherwise installed with the version read iff it passes the 0.2.0 gate, else needs update |
| DistrosBase.LexicalGateRejects010 | nix/inputs/dms-cli/internal/distros/base.go:292 | the gate as written refuses release 0.10.0, though it is newer than 0.2.0 |
| DistrosBase.NumericGate | nix/inputs/dms-cli/internal/distros/base.go:292 | the corrected gate admits x.y.z exactly when (x, y, z) is at least (0, 2, 0) |
| DistrosBase.NumericGateAdmits010 | nix/inputs/dms-cli/internal/distros/base.go:292 | the corrected gate admits release 0.10.0 |
| ManualPackages.ParseLatestTagFromGitOutput | nix/inputs/dms-cli/internal/distros/manual_packages.go:18-30 | the loop returns the tag of the first line that names one, or "" |
| ManualPackages.LatestTag | nix/inputs/dms-cli/internal/distros/manual_packages.go:18-30 | a tag that is found comes from a line naming a tag, not a peeled "^{}" line; with no such line the result is "" |
| ManualPackages.LatestTagNotPeeled | nix/inputs/dms-cli/internal/distros/manual_packages.go:21 | the tag returned never contains "^{}", so peeled annotated-tag entries are never picked |
| ManualPackages.NoTagLine | nix/inputs/dms-cli/internal/distros/manual_packages.go:20-29 | with no line naming a tag the result is "" |
| ManualPackages.FirstTagLine | nix/inputs/dms-cli/internal/distros/manual_packages.go:20-27 | the result is the tag of the first line naming a tag, whatever the lines before it held |
| ManualPackages.TagIsSlice | nix/inputs/dms-cli/internal/distros/manual_packages.go:22-24 | the tag is a contiguous piece of its line |
| ManualPackages.TagOfListingLine | nix/inputs/dms-cli/internal/distros/manual_packages.go:21-25 | a listing line "<hash>\trefs/tags/<name>" gives back exactly <name> |
| DistrosInterface.Registered | nix/inputs/dms-cli/internal/distros/interface.go:116-123 | after registering, the entry for the ID is the new one and every other entry is kept |
| DistrosInterface.Lookup | nix/inputs/dms-cli/internal/distros/interface.go:141-147 | a registered ID yields its own entry; an unregistered one yields the error "unsupported distribution: <id>" |
| DistrosInterface.Registry.Register | nix/inputs/dms-cli/internal/distros/interface.go:116-123 | the registry becomes `Registered` of the old one |
| DistrosInterface.Registry.IsDistroSupported | nix/inputs/dms-cli/internal/distros/interface.go:135-138 | true exactly when the ID is registered; the registry is unchanged |
| DistrosInterface.Registry.NewDistribution | nix/inputs/dms-cli/internal/distros/interface.go:141-147 | the answer is `Lookup` of the registry; the registry is unchanged |
| DistrosInterface.RegisterThenLookup | nix/inputs/dms-cli/internal/distros/interface.go:116-147 | a just-registered ID is supported and looks up its own entry |
| DistrosInterface.RegisterKeepsOthers | nix/inputs/dms-cli/internal/distros/interface.go:116-123 | registering one ID leaves the lookup of every other ID as it was |
| DistrosInterface.LaterRegistrationWins | nix/inputs/dms-cli/internal/distros/interface.go:116-123 | of two registrations under one ID the later one wins |
| DistrosInterface.RegisterAllSupports | nix/inputs/dms-cli/internal/distros/arch.go:15-40 | after the Arch back-end's registrations every listed ID is an Arch-family entry, and no other ID was added |
| DistrosInterface.RegisterAllKeepsUnlisted | nix/inputs/dms-cli/internal/distros/arch.go:15-40 | an ID not registered there keeps its entry |
| DistrosOSInfo.ReadLine | nix/inputs/dms-cli/internal/distros/osinfo.go:52-58 | a line with '=' splits at the first '=' into a key and a value with surrounding quotes trimmed; a line without '=' is skipped |
| DistrosOSInfo.Entry | nix/inputs/dms-cli/internal/distros/osinfo.go:57-77 | which field a line sets: ID, VERSION_ID and BUILD_ID (both the version ID), VERSION, PRETTY_NAME; any other key sets nothing |
| DistrosOSInfo.ReadOSRelease | nix/inputs/dms-cli/internal/distros/osinfo.go:49-80 | the scan returns exactly what reading the lines in order gives, stopping at the first unregistered ID |
| DistrosOSInfo.GetOSInfo | nix/inputs/dms-cli/internal/distros/osinfo.go:30-81 | a non-Linux OS and an architecture other than amd64/arm64 are refused first; then the result is the scan's |
| DistrosOSInfo.ApplyFailsIffUnregistered | nix/inputs/dms-cli/internal/distros/osinfo.go:61-65 | one line fails exactly when it is an ID line naming an unregistered distribution |
| DistrosOSInfo.ReadFailsIffUnregistered | nix/inputs/dms-cli/internal/distros/osinfo.go:49-80 | reading fails exactly when some line names an unregistered ID, and the message names the first such ID |
| DistrosOSInfo.ReadFields | nix/inputs/dms-cli/internal/distros/osinfo.go:39-80 | on success the architecture is the given one and the version ID, version and pretty name are the values of the last line setting each |
| DistrosOSInfo.ReadDistribution | nix/inputs/dms-cli/internal/distros/osinfo.go:61-70 | on success the distribution is the last ID line's, which is registered, with the registry's colour |
| DistrosOSInfo.IsUnsupportedDistro | nix/inputs/dms-cli/internal/distros/osinfo.go:84-115 | unregistered IDs are unsupported; Ubuntu needs a readable major.minor of at least 25.4; Debian needs no version or a readable one of at least 12; any other registered ID is supported |
| DistrosOSInfo.UbuntuGate | nix/inputs/dms-cli/internal/distros/osinfo.go:89-100 | Ubuntu a.b with decimal parts is supported exactly from 25.4 on |
| DistrosOSInfo.DebianGate | nix/inputs/dms-cli/internal/distros/osinfo.go:102-112 | Debian with a decimal version is supported exactly from 12 on |
| DistrosOSInfo.Ubuntu2504 | nix/inputs/dms-cli/internal/distros/osinfo.go:89-100 | Ubuntu 25.04 is supported |
| DistrosOSInfo.Ubuntu2410 | nix/inputs/dms-cli/internal/distros/osinfo.go:89-100 | Ubuntu 24.10 is not |
| DistrosArch.DMSChoice | nix/inputs/dms-cli/internal/distros/arch.go:231-245 | the shell always comes from the AUR, as dms-shell-git when the git variant is asked for or already installed, otherwise as dms-shell-bin |
| DistrosArch.MatugenChoice | nix/inputs/dms-cli/internal/distros/arch.go:220-229 | matugen comes from the AUR as matugen-git on arm64 or for the git variant, otherwise from the system repository |
| DistrosArch.CommonLacksCompositors | nix/inputs/dms-cli/internal/distros/arch.go:165-181 | the mappings shared by both compositors name neither hyprland, hyprctl nor niri |
| DistrosArch.CommonRepositories | nix/inputs/dms-cli/internal/distros/arch.go:165-181 | every shared mapping is a system, AUR or manual package |
| DistrosArch.HyprlandVariants | nix/inputs/dms-cli/internal/distros/arch.go:183-190 | for Hyprland, hyprland and hyprctl map to the same package, hyprland-git from the AUR exactly for the git variant and hyprland from the system otherwise, and niri is not mapped |
| DistrosArch.NiriVariants | nix/inputs/dms-cli/internal/distros/arch.go:191-193 | for niri, niri maps to niri-git from the AUR exactly for the git variant and to niri from the system otherwise, and no Hyprland package is mapped |
| DistrosArch.ArchRepositories | nix/inputs/dms-cli/internal/distros/arch.go:165-197 | every mapped package is a system, AUR or manual package |
| DistrosArch.VariantMap | nix/inputs/dms-cli/internal/distros/arch.go:396-398 | every dependency has a recorded variant |
| DistrosArch.RecordVariants | nix/inputs/dms-cli/internal/distros/arch.go:395-398 | the variant loop computes that map |
| DistrosArch.FilePackages | nix/inputs/dms-cli/internal/distros/arch.go:402-424 | the filing loop computes the three package lists |
| DistrosArch.CategorizePackages | nix/inputs/dms-cli/internal/distros/arch.go:390-427 | the three lists are the dependencies filed under the mappings of the chosen compositor and their variants |
| DistrosArch.AddDependency | nix/inputs/dms-cli/internal/distros/arch.go:402-424 | each list of the plan only grows at its end, by one name in all at most; a skipped dependency leaves the plan as it was |
| DistrosArch.CategorizedSystem | nix/inputs/dms-cli/internal/distros/arch.go:402-424 | a name is a system package exactly when some dependency still to install maps to it in the system repository |
| DistrosArch.CategorizedAur | nix/inputs/dms-cli/internal/distros/arch.go:402-424 | a name is an AUR package exactly when some dependency still to install maps to it in the AUR |
| DistrosArch.CategorizedManual | nix/inputs/dms-cli/internal/distros/arch.go:402-424 | a name is built by hand exactly when it is a dependency still to install with no mapping or a manual one |
| DistrosArch.CategorizedCount | nix/inputs/dms-cli/internal/distros/arch.go:402-424 | every dependency still to install lands in exactly one list, once |
| DistrosArch.Group | nix/inputs/dms-cli/internal/distros/arch.go:542-557 | packages fall into three groups: the shell's dependencies, the others, the shell itself |
| DistrosArch.InGroup | nix/inputs/dms-cli/internal/distros/arch.go:542-557 | a group's packages all belong to that group |
| DistrosArch.ReorderAURPackages | nix/inputs/dms-cli/internal/distros/arch.go:535-563 | the reordering loop computes the grouped order |
| DistrosArch.ReorderedIsPermutation | nix/inputs/dms-cli/internal/distros/arch.go:535-563 | reordering neither loses nor adds a package |
| DistrosArch.ReorderedGroupsInOrder | nix/inputs/dms-cli/internal/distros/arch.go:559-562 | the shell's dependencies come first and the shell itself last |
| DistrosArch.ReorderedStable | nix/inputs/dms-cli/internal/distros/arch.go:542-557 | within each group the original order is kept |
| DistrosArch.GroupsPartition | nix/inputs/dms-cli/internal/distros/arch.go:542-557 | the three groups together hold exactly the input packages |
| DistrosArch.InGroupAppend | nix/inputs/dms-cli/internal/distros/arch.go:542-557 | grouping distributes over concatenation |
| NetworkHelpers.FrequencyToChannel | nix/inputs/dms-cli/internal/server/network/helpers.go:5-22 | the channel is 0 exactly for a frequency outside the 2.4, 5 and 6 GHz bands, and never above 233 |
| NetworkHelpers.ChannelOfCentreFrequency | nix/inputs/dms-cli/internal/server/network/helpers.go:5-22 | each channel's centre frequency maps back to it: 2407+5n for 2.4 GHz channels 1-13, 2484 for channel 14, 5000+5n for 5 GHz channels 34-165, 5950+5n for 6 GHz channels 1-233 |
| NetworkHelpers.Rank | nix/inputs/dms-cli/internal/server/network/helpers.go:25-51 | a single score of a network, at least its signal, weighting connected, saved and strong open above any signal difference |
| NetworkHelpers.LessIsHigherRank | nix/inputs/dms-cli/internal/server/network/helpers.go:25-51 | the comparator holds exactly when the first network ranks higher |
| NetworkHelpers.LessIsStrictWeakOrder | nix/inputs/dms-cli/internal/server/network/helpers.go:25-51 | the comparator is a strict weak order, as the sort requires |
| NetworkHelpers.SortedNetworks | nix/inputs/dms-cli/internal/server/network/helpers.go:25-51 | in a sorted list connected come first; then saved; then a strong open network is never behind a secured one; then signal descends |
| NetworkHelpers.SortWiFiNetworks | nix/inputs/dms-cli/internal/server/network/helpers.go:24-53 | the list is sorted in place by the comparator and is a permutation of the input |
| NetworkManager.StateChangedMeaningfully | nix/inputs/dms-cli/internal/server/network/manager.go:163-265 | the comparison chain returns exactly the as-written change rule, early returns included |
| NetworkManager.TailChanged | nix/inputs/dms-cli/internal/server/network/manager.go:195-264 | the checks after the signal report a change exactly when some compared later field or list item differs |
| NetworkManager.SameNetKeys | nix/inputs/dms-cli/internal/server/network/manager.go:214-229 | the per-network loop finds no difference exactly when SSID, connected, saved and autoconnect agree at every index |
| NetworkManager.SameWiredKeys | nix/inputs/dms-cli/internal/server/network/manager.go:231-240 | the wired loop finds no difference exactly when ID and active agree at every index |
| NetworkManager.SameVpnKeys | nix/inputs/dms-cli/internal/server/network/manager.go:253-262 | the VPN loop finds no difference exactly when UUID and state agree at every index |
| NetworkManager.SameStateUnchanged | nix/inputs/dms-cli/internal/server/network/manager.go:163-265 | a state compared with itself is not a change |
| NetworkManager.HeadDifferenceIsChange | nix/inputs/dms-cli/internal/server/network/manager.go:164-190 | any difference in status, preference, ethernet or Wi-Fi scalar fields is a change |
| NetworkManager.ListDifferenceIsChange | nix/inputs/dms-cli/internal/server/network/manager.go:207-245 | with the signal equal, a different list length or a differing per-network SSID or connected flag is a change |
| NetworkManager.SmallSignalChangeHidesError | nix/inputs/dms-cli/internal/server/network/manager.go:191-194 | as written, a signal move from 60 to 62 hides a finished connection attempt with an error; the intended rule reports it |
| NetworkManager.IntendedRule | nix/inputs/dms-cli/internal/server/network/manager.go:191-264 | the intended rule sees every later difference, agrees with the as-written rule unless the signal moved slightly, and reports every change the as-written rule reports |
| NetworkManager.Manager.GetWiFiNetworks | nix/inputs/dms-cli/internal/server/network/manager.go:411-417 | a fresh array holding the scan list |
| NetworkManager.Manager.GetNetworkInfo | nix/inputs/dms-cli/internal/server/network/manager.go:419-430 | success exactly when some network has the SSID, and then it is the first such; otherwise the error "network not found: <ssid>" |
| NetworkManager.CopyIsIndependent | nix/inputs/dms-cli/internal/server/network/manager.go:411-417 | writing into the returned copy leaves the manager's state unchanged |
| NetworkBroker.PathSettingKey | nix/inputs/dms-cli/internal/server/network/subscription_broker.go:30 | the dedupe key is "path:setting" |
| NetworkBroker.SubscriptionBroker.Ask | nix/inputs/dms-cli/internal/server/network/subscription_broker.go:29-71 | a pending key returns its token and changes nothing; a generator error changes nothing; otherwise the token is added to the pending, request and key maps and the prompt broadcast |
| NetworkBroker.SubscriptionBroker.Wait | nix/inputs/dms-cli/internal/server/network/subscription_broker.go:73-93 | an unknown token errors; a deadline gives the timeout error; a cancel reply gives the cancelled error; any finish cleans the token up |
| NetworkBroker.SubscriptionBroker.Resolve | nix/inputs/dms-cli/internal/server/network/subscription_broker.go:95-112 | an unknown token errors; a full slot errors and keeps the first reply; otherwise the slot takes the reply |
| NetworkBroker.SubscriptionBroker.Cleanup | nix/inputs/dms-cli/internal/server/network/subscription_broker.go:114-125 | the token leaves all three maps, its key included |
| NetworkBroker.SubscriptionBroker.Cancel | nix/inputs/dms-cli/internal/server/network/subscription_broker.go:95-146 | with no pending key nothing happens and no error; otherwise it is `Resolve` of the key's token with a cancel reply: an unknown token and a slot that already holds a reply are errors that leave the slots as they were, an empty slot takes the cancel reply; the requests, keys and broadcast list never change |
| NetworkBroker.AskResolve | nix/inputs/dms-cli/internal/server/network/subscription_broker.go:29-112 | an ask then a reply leaves the token pending with the reply in its slot under the request's key |
| NetworkBroker.AskResolveWait | nix/inputs/dms-cli/internal/server/network/subscription_broker.go:29-125 | ask, reply and wait deliver the reply and leave the broker's maps as they were |
| NetworkBroker.AskTwice | nix/inputs/dms-cli/internal/server/network/subscription_broker.go:30-39 | two asks for the same path and setting give one token and one pending entry |
| BluezBroker.PromptOf | nix/inputs/dms-cli/internal/server/bluez/subscription_broker.go:38-47 | the broadcast prompt carries the token, device path and passkey of the request |
| BluezBroker.SubscriptionBroker.Ask | nix/inputs/dms-cli/internal/server/bluez/subscription_broker.go:26-53 | every ask registers the generated token with an empty slot and broadcasts it; a generator error changes nothing |
| BluezBroker.SubscriptionBroker.Wait | nix/inputs/dms-cli/internal/server/bluez/subscription_broker.go:55-75 | an unknown token errors; a deadline gives the timeout error; a cancel reply gives the cancelled error; reply and timeout both remove the token |
| BluezBroker.SubscriptionBroker.Resolve | nix/inputs/dms-cli/internal/server/bluez/subscription_broker.go:77-92 | an unknown token errors; a full slot errors; otherwise the slot takes the reply |
| BluezBroker.SubscriptionBroker.Cleanup | nix/inputs/dms-cli/internal/server/bluez/subscription_broker.go:94-99 | the token leaves both maps |
| BluezBroker.AskTwiceTwoTokens | nix/inputs/dms-cli/internal/server/bluez/subscription_broker.go:26-36 | two asks for the same request register two tokens, with no dedupe |
| BluezBroker.SecondResolveFails | nix/inputs/dms-cli/internal/server/bluez/subscription_broker.go:77-92 | a second reply before the wait is refused, and the wait delivers the first reply and removes the token |
| IwdWifi.SignalPercent | nix/inputs/dms-cli/internal/server/network/backend_iwd_wifi.go:218-224 | the percent is the strength in hundredths of a dBm, divided with Go's truncation, plus 100, clamped to 0..100 |
| IwdWifi.SignalPercentMonotone | nix/inputs/dms-cli/internal/server/network/backend_iwd_wifi.go:218-224 | a stronger signal never shows a lower percent |
| IwdWifi.SignalPercentExamples | nix/inputs/dms-cli/internal/server/network/backend_iwd_wifi.go:218-224 | -50 dBm is 50%, 0 dBm and above is 100%, -100 dBm and below is 0% |
| IwdWifi.MapIwdDBusError | nix/inputs/dms-cli/internal/server/network/backend_iwd_wifi.go:454-471 | bad credentials exactly for the three authentication errors; an unlisted error name is connection-failed; the code is always one of five |
| IwdWifi.ClassifyAttempt | nix/inputs/dms-cli/internal/server/network/backend_iwd_wifi.go:347-376 | bad credentials exactly on a prompt retry or a drop 0.5-3 s after connecting without an IP; otherwise DHCP timeout exactly for auth-ish or connected with no IP after 12 s; otherwise no-such-SSID exactly with no activity and no scan sighting in 30 s; else association timeout |
| IwdWifi.ConfiguredAttempt | nix/inputs/dms-cli/internal/server/network/backend_iwd_wifi.go:351-366 | an attempt that got an IP configuration and no prompt retry is neither bad credentials nor a DHCP timeout |
| IwdWifi.Refresh | nix/inputs/dms-cli/internal/server/network/backend_iwd_wifi.go:11-99 | without a device nothing is read back; a readable Powered sets Wi-Fi enabled; without a station it stops there; otherwise a readable station state sets connected and the status (wifi exactly when "connected", else disconnected), the connected network's name and signal set SSID and signal, and a successful scan replaces the list; each field not read keeps its value |
| IwdWifi.UpdateState | nix/inputs/dms-cli/internal/server/network/backend_iwd_wifi.go:11-99 | reading the state back changes only the Wi-Fi enabled, connected, status, SSID, signal and network-list fields, as `Refresh` says |
| IwdWifi.UpdateKeepsAttempt | nix/inputs/dms-cli/internal/server/network/backend_iwd_wifi.go:11-99 | reading the state back keeps the connecting flag, the connecting SSID and the last error |
| IwdWifi.IWDBackend.SetConnectError | nix/inputs/dms-cli/internal/server/network/backend_iwd_wifi.go:332-338 | the attempt ends: connecting and its SSID cleared, the error set to the code |
| IwdWifi.IWDBackend.FinalizeAttempt | nix/inputs/dms-cli/internal/server/network/backend_iwd_wifi.go:378-398 | only the first call acts: it ends the attempt with the code, reads the state back with `UpdateState` (which keeps the code and the cleared connecting fields) and notifies once; later calls change nothing |
| IwdWifi.DoubleFinalization | nix/inputs/dms-cli/internal/server/network/backend_iwd_wifi.go:378-398 | after two finalizations, whatever iwd reports in between, the error is the first code and the attempt has ended |
| NMState.ClassifyNMStateReason | nix/inputs/dms-cli/internal/server/network/backend_networkmanager_state.go:125-145 | each listed reason group maps to its code, each code exactly for its reasons, anything else to connection-failed |
| NMState.FailureCode | nix/inputs/dms-cli/internal/server/network/backend_networkmanager_state.go:202-211 | a connection-failed repeat for the same SSID within 5 s becomes bad credentials; otherwise the reason's own code |
| NMState.WithWiFiFields | nix/inputs/dms-cli/internal/server/network/backend_networkmanager_state.go:166-190 | connected exactly when the device is activated; not activated clears SSID, BSSID, IP and signal; the attempt fields are kept |
| NMState.NetworkManagerBackend.UpdateWiFiState | nix/inputs/dms-cli/internal/server/network/backend_networkmanager_state.go:147-247 | no device or a read error changes nothing; an attempt ending with reason 0 or new-activation changes nothing; reaching the target SSID ends the attempt with no error; another ending records the failure code and the failed SSID and time; otherwise only the Wi-Fi fields change |
| NMState.RepeatedFailure | nix/inputs/dms-cli/internal/server/network/backend_networkmanager_state.go:202-237 | two failures of the same SSID in a row within 5 s end with bad credentials |
| NMAgent.StringAt | nix/inputs/dms-cli/internal/server/network/agent_networkmanager.go:441-460 | a non-empty value was a string stored under that group and key |
| NMAgent.BytesToString | nix/inputs/dms-cli/internal/server/network/agent_networkmanager.go:431-433 | byte-wise conversion: same length, each character the byte's value |
| NMAgent.ReadSSID | nix/inputs/dms-cli/internal/server/network/agent_networkmanager.go:427-439 | the SSID is the wireless setting's string, or its bytes read as characters, and "" when absent or of another type |
| NMAgent.ReadConnTypeAndName | nix/inputs/dms-cli/internal/server/network/agent_networkmanager.go:441-466 | type, name and VPN service are the string settings; an empty id falls back to the SSID for wireless connections and to "" otherwise |
| NMAgent.FieldsNeeded | nix/inputs/dms-cli/internal/server/network/agent_networkmanager.go:468-479 | ["psk"] for wireless security, ["identity", "password"] for 802.1x, the hints for VPN, [] otherwise |
| NMAgent.ReasonFromFlags | nix/inputs/dms-cli/internal/server/network/agent_networkmanager.go:481-499 | wrong-password exactly when the request-new bit is set; user-requested exactly when only the user-requested bit of the two is set; otherwise required |
| NMAgent.PasswordFlags | nix/inputs/dms-cli/internal/server/network/agent_networkmanager.go:180-199 | only the wireless-security and 802.1x settings carry password flags; any other setting reads as unknown |
| NMAgent.EmptyFieldsAnswer | nix/inputs/dms-cli/internal/server/network/agent_networkmanager.go:165-217 | with no fields to ask, NoSecrets exactly for VPN, unknown flags, or agent-owned without not-required; otherwise an empty secret map for the setting |
| NMAgent.GetSecretsStep | nix/inputs/dms-cli/internal/server/network/agent_networkmanager.go:109-258 | no fields never prompts; a prompt asks for exactly the needed fields with the request's setting, path, hints and SSID; its reason differs from the flags' only as wrong-password after a recent failure; a request for another SSID during a Wi-Fi connect is refused with NoSecrets |
| NMAgent.ReplyAnswer | nix/inputs/dms-cli/internal/server/network/agent_networkmanager.go:255-290 | a failed ask is a Failed error; a reply without error yields its secrets under the setting; errors are only Failed or UserCanceled |
| NMAgent.VpnWithoutHintsDefers | nix/inputs/dms-cli/internal/server/network/agent_networkmanager.go:169-172 | a VPN request without hints returns NoSecrets |
| NMAgent.WirelessNameFallsBack | nix/inputs/dms-cli/internal/server/network/agent_networkmanager.go:462-464 | a wireless connection with an empty or non-string id is named by its SSID |
| NetworkHybrid.MergeStates | nix/inputs/dms-cli/internal/server/network/backend_hybrid_iwd_networkd.go:68-97 | either error is passed on, iwd's first; otherwise backend "iwd+networkd", the Wi-Fi fields from iwd, the Wi-Fi IP and ethernet fields from networkd, and status ethernet iff networkd has ethernet with an IP, else wifi iff iwd is connected and networkd has a Wi-Fi IP, else disconnected |
| NetworkHybrid.StatusNeedsAddress | nix/inputs/dms-cli/internal/server/network/backend_hybrid_iwd_networkd.go:88-94 | connected Wi-Fi without a networkd address is disconnected; ethernet with an IP wins over Wi-Fi |
| NetworkHybrid.HybridVpn | nix/inputs/dms-cli/internal/server/network/backend_hybrid_iwd_networkd.go:156-178 | listing gives empty lists; every other VPN operation fails with "VPN not supported in hybrid mode" |
| NetworkNetworkd.Pick | nix/inputs/dms-cli/internal/server/network/backend_networkd.go:116-138 | the link chosen, when there is one, is one of the links |
| NetworkNetworkd.PickSnoc | nix/inputs/dms-cli/internal/server/network/backend_networkd.go:129-137 | one more link becomes the choice exactly when it is a candidate and nothing was chosen yet or it is up |
| NetworkNetworkd.PickNoneIff | nix/inputs/dms-cli/internal/server/network/backend_networkd.go:116-138 | nothing is chosen exactly when no link is a candidate |
| NetworkNetworkd.PickUpIsLast | nix/inputs/dms-cli/internal/server/network/backend_networkd.go:116-138 | the choice is a candidate, and when it is up no later candidate is up |
| NetworkNetworkd.PickDownIsFirst | nix/inputs/dms-cli/internal/server/network/backend_networkd.go:116-138 | a choice that is down is the first candidate, and no candidate is up |
| NetworkNetworkd.PickIsLastUpOrFirst | nix/inputs/dms-cli/internal/server/network/backend_networkd.go:116-138 | the selection rule in full: none iff no candidate; otherwise the last candidate that is up, or the first candidate when none is up |
| NetworkNetworkd.WiredOfLink | nix/inputs/dms-cli/internal/server/network/backend_networkd.go:146-153 | a wired connection is named after its link, has UUID "wired:<name>", and is active iff the link is routable or carrier |
| NetworkNetworkd.WiredOfLinks | nix/inputs/dms-cli/internal/server/network/backend_networkd.go:140-154 | the wired list holds exactly the non-virtual, non-Wi-Fi links |
| NetworkNetworkd.SystemdNetworkdBackend.UpdateState | nix/inputs/dms-cli/internal/server/network/backend_networkd.go:109-197 | each non-virtual link takes its freshly read state, and the backend state becomes `StateAfter` of the refreshed links |
| NetworkNetworkd.StateAfter | nix/inputs/dms-cli/internal/server/network/backend_networkd.go:156-194 | ethernet connected iff the chosen wired link is up, Wi-Fi connected iff the chosen Wi-Fi link is up; status ethernet iff ethernet is connected, else wifi iff Wi-Fi is connected with an address; IPs are cleared when not connected; the wired list is rebuilt; attempt fields and scan list are kept |
| NetworkNetworkd.RefreshAndPick | nix/inputs/dms-cli/internal/server/network/backend_networkd.go:116-138 | the loop refreshes every link and ends with the wired and Wi-Fi choices `Pick` defines |
| NetworkNetworkd.RefreshOne | nix/inputs/dms-cli/internal/server/network/backend_networkd.go:116-137 | one loop step: the link is refreshed and each choice moves to it by the candidate rule |
| NetworkNetworkd.WiredConnections | nix/inputs/dms-cli/internal/server/network/backend_networkd.go:140-154 | the loop builds the wired list `WiredOf` defines |
| NetworkNetworkd.PhysicalNamesNotVirtual | nix/inputs/dms-cli/internal/server/network/backend_networkd.go:199-210 | names starting with 'e' or 'w' are never virtual |
| NetworkNetworkd.IsVirtualInterface | nix/inputs/dms-cli/internal/server/network/backend_networkd.go:199-210 | a virtual name has at least two characters and never starts with 'e' or 'w', the starts of Ethernet and Wi-Fi names |
| NetworkNetworkd.VirtualExamples | nix/inputs/dms-cli/internal/server/network/backend_networkd.go:199-210 | "lo", "docker0" and "br-1a2b" are virtual |
| NetworkPriority.WithMetric | nix/inputs/dms-cli/internal/server/network/priority.go:88-116 | a readable profile of the type whose update succeeds gets the metric for IPv4 and IPv6; any other profile is unchanged |
| NetworkPriority.SetConnectionMetrics | nix/inputs/dms-cli/internal/server/network/priority.go:77-119 | a settings or listing error is returned with its prefix and nothing changes; otherwise every profile gets `WithMetric` |
| NetworkPriority.AccessError | nix/inputs/dms-cli/internal/server/network/priority.go:73-82 | a pass fails before touching profiles exactly when opening the settings or listing the connections fails, with that step's prefixed message |
| NetworkPriority.PreferenceMetrics | nix/inputs/dms-cli/internal/server/network/priority.go:38-75 | auto gives equal metrics; wifi preference gives Wi-Fi the lower one; one of the two is always 50 |
| NetworkPriority.WithPreferenceMetrics | nix/inputs/dms-cli/internal/server/network/priority.go:26-75 | Wi-Fi and ethernet profiles get their preference's metrics, others are untouched, and this is the two metric passes in order |
| NetworkPriority.FirstPass | nix/inputs/dms-cli/internal/server/network/priority.go:26-71 | the Wi-Fi preference updates Wi-Fi first, the ethernet and auto preferences update ethernet first; the first pass always sets metric 50 |
| NetworkPriority.SecondPass | nix/inputs/dms-cli/internal/server/network/priority.go:26-71 | the second pass updates the other kind, with metric 50 for auto and 100 otherwise |
| NetworkPriority.SetConnectionPreference | nix/inputs/dms-cli/internal/server/network/priority.go:10-71 | an invalid preference errors and changes nothing; a valid one is stored; without NetworkManager subscribers are notified; with it a failing first pass returns its error with no profile changed, a failing second pass returns its error with only the first pass applied, and neither notifies; when both succeed every profile has its kind's metric and subscribers are notified |
| NetworkPriority.WasRecentlyFailed | nix/inputs/dms-cli/internal/server/network/priority.go:127-138 | true exactly when the backend is NetworkManager, the SSID is the last failed one and fewer than 10 s have passed |
| NetworkPriority.RecentFailureWindow | nix/inputs/dms-cli/internal/server/network/priority.go:127-138 | after a failure, the SSID counts as recently failed exactly for the next 10 s |
| BrightnessSysfs.ScannedDevice | nix/inputs/dms-cli/internal/server/brightness/sysfs.go:28-84 | a device is kept exactly when its max brightness reads as a positive number; its ID is "class:name", LEDs get minimum 0 and class LED, backlights minimum 1 |
| BrightnessSysfs.PercentToValue | nix/inputs/dms-cli/internal/server/brightness/sysfs.go:211-235 | 0% is the minimum value; values stay within [minimum, max]; 1% is the minimum and 100% is the maximum |
| BrightnessSysfs.ValueToPercent | nix/inputs/dms-cli/internal/server/brightness/sysfs.go:241-270 | the percent is within 0..100; 0 exactly for value 0 on a device with minimum 0; a value at or below the minimum reads at most 1; a zero range reads 100 |
| BrightnessSysfs.PercentToValueMonotone | nix/inputs/dms-cli/internal/server/brightness/sysfs.go:211-235 | a higher percent never gives a lower value |
| BrightnessSysfs.LinearRoundTrip | nix/inputs/dms-cli/internal/server/brightness/sysfs.go:211-270 | for a range of at least 99 steps, converting a percent to a value and back loses at most 1% |
| BrightnessSysfs.SingleStepLed | nix/inputs/dms-cli/internal/server/brightness/sysfs.go:223-232 | an LED with max 1 is off below 100% |
| BrightnessSysfs.SuppressExamples | nix/inputs/dms-cli/internal/server/brightness/sysfs.go:86-106 | keyboard-LED and "::lan" names are suppressed, a backlight is not |
| BrightnessSysfs.ShouldSuppressDevice | nix/inputs/dms-cli/internal/server/brightness/sysfs.go:86-106 | only LED-style names, which hold "::" (as in "input3::capslock"), are ever suppressed |
| BrightnessSysfs.SetBrightnessValue | nix/inputs/dms-cli/internal/server/brightness/sysfs.go:174-200 | an unknown device errors first, then an out-of-range percent, then an ID without ':'; otherwise the value written is `PercentToValue` of the percent |
| BrightnessDdc.DdcciChecksum | nix/inputs/dms-cli/internal/server/brightness/ddc.go:377-383 | the loop computes 0x6E XOR every payload byte |
| BrightnessDdc.ChecksumClosesPacket | nix/inputs/dms-cli/internal/server/brightness/ddc.go:377-383 | appending the checksum makes the XOR of seed and packet 0 |
| BrightnessDdc.Packet | nix/inputs/dms-cli/internal/server/brightness/ddc.go:309-314 | a packet is the source address, the length with bit 7 set, the data and a closing checksum |
| BrightnessDdc.SetData | nix/inputs/dms-cli/internal/server/brightness/ddc.go:386-391 | a set command is the set opcode, the VCP code and the value as two big-endian bytes |
| BrightnessDdc.GetData | nix/inputs/dms-cli/internal/server/brightness/ddc.go:304-307 | a get command is the get opcode and the VCP code |
| BrightnessDdc.BigEndian16 | nix/inputs/dms-cli/internal/server/brightness/ddc.go:367-368 | two bytes read big-endian give a value below 65536 |
| BrightnessDdc.ParseVcpReply | nix/inputs/dms-cli/internal/server/brightness/ddc.go:342-374 | a reply is accepted exactly when at least 8 bytes were read with byte 0 = 0x6E, byte 2 = 0x02, result 0 and the asked VCP code; then max and current are bytes 6-7 and 8-9 big-endian; a nonzero result is "vcp feature not supported" |
| BrightnessDdc.SetValueRoundTrip | nix/inputs/dms-cli/internal/server/brightness/ddc.go:362-391 | a reply carrying the bytes a set command encodes decodes back to the same max and value |
| BrightnessDdc.PercentToValue | nix/inputs/dms-cli/internal/server/brightness/ddc.go:414-441 | 0% is 1; values stay within [1, max]; 100% is max |
| BrightnessDdc.ValueToPercent | nix/inputs/dms-cli/internal/server/brightness/ddc.go:443-479 | max 0 and only max 0 reads 0%; the percent is within 0..100; a value of at most 1 reads 1%; max 1 reads 100% above 1 |
| BrightnessDdc.LinearRoundTrip | nix/inputs/dms-cli/internal/server/brightness/ddc.go:414-479 | for max of at least 100, converting a percent to a value and back loses at most 1% |
| BrightnessDdc.DDCBackend.SetBrightness | nix/inputs/dms-cli/internal/server/brightness/ddc.go:193-241 | an unknown device or a value outside 0..100 errors and changes nothing; otherwise the value becomes the device's pending request |
| BrightnessDdc.LastRequestWins | nix/inputs/dms-cli/internal/server/brightness/ddc.go:193-241 | of two requests within the debounce window the later one is pending |
| BrightnessDdcFilter.IsIgnorableI2CDeviceName | nix/inputs/dms-cli/internal/server/brightness/ddc_filter.go:39-63 | ignorable exactly when the name starts with one of the listed adapter prefixes, or the driver is nouveau and the name does not start with "nvkm-" |
| BrightnessDdcFilter.IsIgnorableI2CBus | nix/inputs/dms-cli/internal/server/brightness/ddc_filter.go:15-37 | a bus with an ignorable name is skipped; otherwise it is skipped exactly when its PCI class is nonzero and neither display nor docking |
| BrightnessDdcFilter.SubclassesProbed | nix/inputs/dms-cli/internal/server/brightness/ddc_filter.go:26-33 | every display and docking subclass is probed |
| BrightnessDdcFilter.NameExamples | nix/inputs/dms-cli/internal/server/brightness/ddc_filter.go:39-63 | the AMDGPU SMU and SMBus adapters and a non-nvkm bus under nouveau are ignorable; an nvkm bus is not |
| BrightnessManager.ClassOrder | nix/inputs/dms-cli/internal/server/brightness/manager.go:92-100 | backlight ranks 0, DDC 1, LEDs 2 |
| BrightnessManager.DeviceLessIsStrictWeakOrder | nix/inputs/dms-cli/internal/server/brightness/manager.go:91-108 | the device comparator is a strict weak order |
| BrightnessManager.SortDevices | nix/inputs/dms-cli/internal/server/brightness/manager.go:91-108 | the devices are sorted in place by class rank then name, as a permutation of the input |
| BrightnessManager.SortedDevices | nix/inputs/dms-cli/internal/server/brightness/manager.go:91-108 | in a sorted list classes ascend backlight, DDC, LEDs, and names ascend within a class |
| BrightnessManager.ById | nix/inputs/dms-cli/internal/server/brightness/manager.go:115-118 | the map holds exactly the IDs of the devices |
| BrightnessManager.MapById | nix/inputs/dms-cli/internal/server/brightness/manager.go:115-118 | the loop builds the map `ById` defines |
| BrightnessManager.StateChanged | nix/inputs/dms-cli/internal/server/brightness/manager.go:110-131 | changed exactly when the counts differ or some new device is missing from the old list or differs in current value or max |
| BrightnessManager.OnlyPercentsChanged | nix/inputs/dms-cli/internal/server/brightness/manager.go:110-131 | a list whose devices differ only in their percent is not a change |
| BrightnessManager.FindDevice | nix/inputs/dms-cli/internal/server/brightness/manager.go:205-209 | the index of the first device with the ID, or none when no device has it |
| BrightnessManager.Manager.UpdateState | nix/inputs/dms-cli/internal/server/brightness/manager.go:133-171 | the listed devices are the sysfs ones then the DDC ones, sorted; they replace the state and notify exactly when they differ from it |
| BrightnessManager.Manager.SetBrightness | nix/inputs/dms-cli/internal/server/brightness/manager.go:181-242 | a percent outside 0..100 and an unknown device error without change; otherwise only that device's percent changes, and a backend error is passed on |
| BrightnessManager.Manager.IncrementBrightness | nix/inputs/dms-cli/internal/server/brightness/manager.go:252-281 | an unknown device errors; otherwise the device's percent moves by the step, clamped to 0..100 |
| BrightnessManager.Manager.DecrementBrightness | nix/inputs/dms-cli/internal/server/brightness/manager.go:283-285 | the same as incrementing by the negated step |
| PluginsSearch.EmbeddingIsEmbedding | nix/inputs/dms-cli/internal/plugins/search.go:28-36 | a query that is a subsequence of the text has an embedding: increasing positions of the text holding its characters |
| PluginsSearch.EmbeddingGivesSubsequence | nix/inputs/dms-cli/internal/plugins/search.go:28-36 | any such embedding makes the query a subsequence |
| PluginsSearch.SubsequenceIffEmbedding | nix/inputs/dms-cli/internal/plugins/search.go:28-36 | the query is a subsequence of the text exactly when an embedding exists |
| PluginsSearch.FuzzyMatch | nix/inputs/dms-cli/internal/plugins/search.go:28-36 | the scanning loop matches exactly when the query is a subsequence of the text |
| PluginsSearch.FuzzySearch | nix/inputs/dms-cli/internal/plugins/search.go:8-26 | an empty query returns the list unchanged; otherwise the results are, in order, the plugins whose lower-cased name, category, description or author has the lower-cased query as a subsequence |
| PluginsSearch.SearchMembers | nix/inputs/dms-cli/internal/plugins/search.go:13-25 | a plugin is in the results exactly when it is in the list and matches the query, and lower-casing the query again changes nothing |
| PluginsSearch.ToLowerIdempotent | nix/inputs/dms-cli/internal/plugins/search.go:13 | lower-casing twice is lower-casing once |
| PluginsSearch.FilterByCategory | nix/inputs/dms-cli/internal/plugins/search.go:38-53 | "" keeps the list; otherwise the plugins whose category equals it ignoring case, in order |
| PluginsSearch.ContainsFold | nix/inputs/dms-cli/internal/plugins/search.go:62-67 | the inner loop finds an item equal to the lower-cased text ignoring case exactly when one exists |
| PluginsSearch.FilterByCompositor | nix/inputs/dms-cli/internal/plugins/search.go:55-73 | "" keeps the list; otherwise the plugins listing that compositor ignoring case, in order |
| PluginsSearch.FilterByCapability | nix/inputs/dms-cli/internal/plugins/search.go:75-93 | "" keeps the list; otherwise the plugins listing that capability ignoring case, in order |
| PluginsSearch.FilterMembers | nix/inputs/dms-cli/internal/plugins/search.go:38-93 | a filtered list holds exactly the plugins passing the test |
| PluginsSearch.SortByFirstParty | nix/inputs/dms-cli/internal/plugins/search.go:95-105 | the first-party plugins in their order, then the others in theirs |
| PluginsSearch.FirstPartyPartition | nix/inputs/dms-cli/internal/plugins/search.go:95-105 | the result is a permutation with every first-party plugin ahead of every other one |
| PluginsSearch.FirstPartyExample | nix/inputs/dms-cli/internal/plugins/search.go:95-105 | an AvengeMedia plugin moves ahead of a third-party one |
| WaylandTypes.Validate | nix/inputs/dms-cli/internal/server/wayland/types.go:109-135 | valid exactly when temperatures, gamma, location and manual times all are; the error names the first check that fails |
| WaylandTypes.DefaultConfig | nix/inputs/dms-cli/internal/server/wayland/types.go:99-107 | 4000 K / 6500 K, gamma 1.0, disabled, no location, no outputs; and it validates |
| WaylandTypes.ValidateBoundaries | nix/inputs/dms-cli/internal/server/wayland/types.go:110-130 | the boundary latitude -90 and longitude 180 pass; a latitude without longitude, gamma 0 and swapped temperatures fail with their errors |
| WaylandTypes.StateChanged | nix/inputs/dms-cli/internal/server/wayland/types.go:171-194 | a missing side is a change; otherwise unchanged exactly when temperature, day flag, the three times and the enabled flag agree |
| WaylandTypes.StateChangedIgnoresConfigDetails | nix/inputs/dms-cli/internal/server/wayland/types.go:171-194 | a state is unchanged against itself and against any config with the same enabled flag |
| DwlTypes.TagsChanged | nix/inputs/dms-cli/internal/server/dwl/types.go:151-161 | the tag loop reports a change exactly when the tag lists differ |
| DwlTypes.OutputChanged | nix/inputs/dms-cli/internal/server/dwl/types.go:138-161 | an output is unchanged exactly when every compared field and its tags agree |
| DwlTypes.StateChanged | nix/inputs/dms-cli/internal/server/dwl/types.go:116-168 | a missing side is a change |
| DwlTypes.UnchangedMeans | nix/inputs/dms-cli/internal/server/dwl/types.go:116-168 | two states are unchanged exactly when tag count, layout count, active output and output names agree and each output agrees field by field |
| DwlTypes.LayoutRenameUnnoticed | nix/inputs/dms-cli/internal/server/dwl/types.go:123-125 | renaming layouts without changing their number is not a change |
| DwlTypes.GetState | nix/inputs/dms-cli/internal/server/dwl/types.go:78-90 | the state when there is one; otherwise no outputs, no layouts, tag count 0 |
| CupsManager.FirstValue | nix/inputs/dms-cli/internal/server/cups/manager.go:314-340 | the first value of a present, non-empty attribute, and none otherwise |
| CupsManager.GetStringAttr | nix/inputs/dms-cli/internal/server/cups/manager.go:314-322 | "" when missing; a string as itself; booleans and integers in their %v text |
| CupsManager.GetIntAttr | nix/inputs/dms-cli/internal/server/cups/manager.go:324-331 | an integer attribute's value; any nonzero result is that value, so missing or mistyped reads 0 |
| CupsManager.GetBoolAttr | nix/inputs/dms-cli/internal/server/cups/manager.go:333-340 | true exactly when the first value is the boolean true |
| CupsManager.StateNumber | nix/inputs/dms-cli/internal/server/cups/manager.go:270-312 | the state number when the first value is an integer, and none otherwise |
| CupsManager.ParsePrinterState | nix/inputs/dms-cli/internal/server/cups/manager.go:270-286 | 3, 4, 5 give idle, processing, stopped; any other integer its decimal text; a missing or non-integer state "unknown" |
| CupsManager.ParseJobState | nix/inputs/dms-cli/internal/server/cups/manager.go:288-312 | 3..9 give the seven job-state names; any other integer its decimal text; a missing or non-integer state "unknown" |
| CupsManager.StateNameExamples | nix/inputs/dms-cli/internal/server/cups/manager.go:270-312 | printer state 4 is "processing", job states 9 and 5 are "completed" and "processing", a missing job state and a printer state sent as text are "unknown" |
| CupsManager.UnchangedMeans | nix/inputs/dms-cli/internal/server/cups/manager.go:252-268 | unchanged exactly when the same printers are present with equal state, state reason and job count |
| CupsManager.StateChanged | nix/inputs/dms-cli/internal/server/cups/manager.go:252-268 | a state is never changed against itself, and a printer that disappears always counts as a change |
| CupsManager.NewEndpoint | nix/inputs/dms-cli/internal/server/cups/manager.go:14-71 | the host defaults to localhost; the port is the environment's when it parses, else 631; the base URL is "http://host:port"; D-Bus is used exactly for a local host |
| CupsManager.DefaultEndpoint | nix/inputs/dms-cli/internal/server/cups/manager.go:14-71 | with nothing set, the endpoint is http://localhost:631 over D-Bus |
| CupsManager.RemoteEndpoint | nix/inputs/dms-cli/internal/server/cups/manager.go:14-71 | a remote host is not served over D-Bus, and an unparsable port falls back to 631 |
| CupsActions.DecodePrinter | nix/inputs/dms-cli/internal/server/cups/actions.go:28-38 | a printer's name, state and accepting flag come from their attributes, with no jobs yet |
| CupsActions.PrintersFiltered | nix/inputs/dms-cli/internal/server/cups/actions.go:27-43 | no more printers than replies, and none with an empty name |
| CupsActions.PrintersMembers | nix/inputs/dms-cli/internal/server/cups/actions.go:27-43 | every reply with a name is decoded into the list, and every listed printer is the decoding of a reply |
| CupsActions.GetPrinters | nix/inputs/dms-cli/internal/server/cups/actions.go:10-46 | a client error is passed on; otherwise the printers `Printers` defines |
| CupsActions.DecodePrinters | nix/inputs/dms-cli/internal/server/cups/actions.go:27-43 | the loop builds the list `Printers` defines |
| CupsActions.JobPrinter | nix/inputs/dms-cli/internal/server/cups/actions.go:74-79 | an empty URI gives ""; otherwise the text after the last '/' |
| CupsActions.DecodeJob | nix/inputs/dms-cli/internal/server/cups/actions.go:66-83 | ID and state from their attributes, size is kilobytes times 1024, the printer is the URI's last segment, and the creation time is set exactly when the timestamp is positive |
| CupsActions.JobsFiltered | nix/inputs/dms-cli/internal/server/cups/actions.go:65-88 | no more jobs than replies, and none with ID 0 |
| CupsActions.JobsMembers | nix/inputs/dms-cli/internal/server/cups/actions.go:65-88 | every reply with a nonzero ID is decoded into the list, and every listed job is the decoding of a reply |
| CupsActions.GetJobs | nix/inputs/dms-cli/internal/server/cups/actions.go:48-91 | a client error is passed on; otherwise the jobs `Jobs` defines |
| CupsActions.DecodeJobs | nix/inputs/dms-cli/internal/server/cups/actions.go:65-88 | the loop builds the list `Jobs` defines |
| CupsActions.JobPrinterIsAfterLast | nix/inputs/dms-cli/internal/server/cups/actions.go:74-79 | the printer is exactly the text after the last '/' |
| CupsActions.JobExample | nix/inputs/dms-cli/internal/server/cups/actions.go:71-79 | 10 kilobytes is 10240 bytes, and ipp://localhost/printers/office gives printer "office" |
| CupsDbus.KindOf | nix/inputs/dms-cli/internal/server/cups/subscription_dbus.go:153-251 | each handled signal name has a non-empty event name; the job signals also read the printer URI |
| CupsDbus.TextPrinter | nix/inputs/dms-cli/internal/server/cups/subscription_dbus.go:158-161 | a printer read from the text is its first space-separated token, and only when there are at least two |
| CupsDbus.EventPrinter | nix/inputs/dms-cli/internal/server/cups/subscription_dbus.go:157-168 | the printer comes from the text, or for job signals from after the last '/' of the URI |
| CupsDbus.ParseDBusSignal | nix/inputs/dms-cli/internal/server/cups/subscription_dbus.go:151-252 | an unknown name or a body shorter than 6 gives the empty event; the event is named exactly when the name is known, the body long enough and its first item a string; a job ID comes from a uint32 in item 3 |
| CupsDbus.JobCreatedExample | nix/inputs/dms-cli/internal/server/cups/subscription_dbus.go:174-192 | a job-created signal whose text starts with the printer gives that printer and the job ID |
| CupsDbus.Delivered | nix/inputs/dms-cli/internal/server/cups/subscription_dbus.go:119-149 | no more events than signals, none unnamed, and every named event is delivered |
| CupsDbus.Listen | nix/inputs/dms-cli/internal/server/cups/subscription_dbus.go:119-149 | the listener loop delivers exactly the events `Delivered` defines |
| CupsDbus.DBusSubscriptionManager.Start | nix/inputs/dms-cli/internal/server/cups/subscription_dbus.go:34-79 | starting while running errors and changes nothing; each setup error is returned with its prefix and leaves it stopped; otherwise it runs with the new subscription ID |
| CupsDbus.DBusSubscriptionManager.Stop | nix/inputs/dms-cli/internal/server/cups/subscription_dbus.go:258-281 | afterwards it is stopped; a stopped manager is untouched; a running one drops its subscription ID |
| CupsDbus.StartStopStart | nix/inputs/dms-cli/internal/server/cups/subscription_dbus.go:34-281 | a second start fails while running, and a start after stop succeeds |
| Loginctl.StateChangedMeaningfully | nix/inputs/dms-cli/internal/server/loginctl/manager.go:329-346 | a session change is reported exactly when Locked, LockedHint, Active, IdleHint or PreparingForSleep differ |
| Loginctl.MeaningfulExamples | nix/inputs/dms-cli/internal/server/loginctl/manager.go:329-346 | renaming the user or moving the session path is not a change; flipping any one of the five watched flags is |
| Loginctl.FallbackDelay | nix/inputs/dms-cli/internal/server/loginctl/manager.go:280-304 | the lock fallback delay is 80% of logind's InhibitDelayMaxUSec clamped to 2..4 seconds, and 2 seconds when the property cannot be read |
| Loginctl.FallbackDelayExamples | nix/inputs/dms-cli/internal/server/loginctl/manager.go:280-304 | a 5 s maximum gives 4 s, 3 s gives 2.4 s, 0 gives 2 s |
| Loginctl.ApplyProperty | nix/inputs/dms-cli/internal/server/loginctl/monitor.go:100-157 | a changed property other than Active, IdleHint, IdleSinceHint, LockedHint leaves the session alone; a boolean LockedHint sets both LockedHint and Locked |
| Loginctl.ApplyChangesFrame | nix/inputs/dms-cli/internal/server/loginctl/monitor.go:100-157 | a PropertiesChanged signal changes only the five handled fields, and Locked either stays or follows LockedHint |
| Loginctl.ApplyChangesStep | nix/inputs/dms-cli/internal/server/loginctl/monitor.go:100-157 | applying a map of changes equals applying its entries one at a time, in any order |
| Loginctl.Restrict | nix/inputs/dms-cli/internal/server/loginctl/manager.go:126-218 | the properties kept are exactly those of the input with the requested names, with their values |
| Loginctl.RefreshSession | nix/inputs/dms-cli/internal/server/loginctl/manager.go:126-218 | a full refresh keeps the session id, path and sleep flag, takes Locked and LockedHint from a boolean LockedHint property, and changes nothing for an empty answer |
| Loginctl.SignalAgreesWithRefresh | nix/inputs/dms-cli/internal/server/loginctl/manager.go:126-218 | a PropertiesChanged signal and a full refresh with the same properties agree on every watched flag and on IdleSinceHint |
| Loginctl.RebindSession | nix/inputs/dms-cli/internal/server/loginctl/manager.go:91-124 | without a manager, on a failed lookup or an unchanged path the session stays as it is; otherwise it takes the new path and, when its properties can be read, their lock state; the session id and sleep flag never change |
| Loginctl.RebindIdempotent | nix/inputs/dms-cli/internal/server/loginctl/manager.go:91-124 | re-binding again with the same answers changes nothing more |
| Loginctl.Manager.constructor | nix/inputs/dms-cli/internal/server/loginctl/manager.go:13-57 | the session id is XDG_SESSION_ID or "self" when that is empty; the manager starts unlocked, outside a sleep cycle, with the inhibitor enabled but not held, lock-before-suspend off and no lock request sent |
| Loginctl.Manager.SetLockBeforeSuspend | nix/inputs/dms-cli/internal/server/loginctl/actions.go:75-77 | the lock-before-suspend flag becomes the given value |
| Loginctl.Manager.Subscribe | nix/inputs/dms-cli/internal/server/loginctl/manager.go:352-358 | adds the subscriber |
| Loginctl.Manager.Unsubscribe | nix/inputs/dms-cli/internal/server/loginctl/manager.go:360-367 | removes the subscriber; an unknown id changes nothing |
| Loginctl.Manager.NotifySubscribers | nix/inputs/dms-cli/internal/server/loginctl/manager.go:420-425 | marks a notification pending |
| Loginctl.Manager.InitializeFallbackDelay | nix/inputs/dms-cli/internal/server/loginctl/manager.go:280-304 | stores the fallback delay, always between 2 and 4 seconds |
| Loginctl.Manager.AcquireSleepInhibitor | nix/inputs/dms-cli/internal/server/loginctl/manager.go:229-252 | does nothing when disabled or already held; fails with "manager object not available" without a manager; otherwise holds the inhibitor exactly when logind grants it |
| Loginctl.Manager.ReleaseSleepInhibitor | nix/inputs/dms-cli/internal/server/loginctl/manager.go:263-271 | afterwards no inhibitor is held |
| Loginctl.Manager.ReleaseForCycle | nix/inputs/dms-cli/internal/server/loginctl/manager.go:273-278 | releases the inhibitor only inside the sleep cycle with that id; a stale id leaves it as it was |
| Loginctl.Manager.NewLockerReadyCh | nix/inputs/dms-cli/internal/server/loginctl/manager.go:306-311 | installs a fresh, never-closed locker-ready channel |
| Loginctl.Manager.SignalLockerReady | nix/inputs/dms-cli/internal/server/loginctl/manager.go:313-321 | closes the pending locker-ready channel exactly once and forgets it; with none pending nothing is closed |
| Loginctl.Manager.OnLock | nix/inputs/dms-cli/internal/server/loginctl/monitor.go:11-28 | Lock sets Locked and LockedHint, notifies, and inside a sleep cycle arms the fallback timer for the current cycle |
| Loginctl.Manager.OnLockTimerFired | nix/inputs/dms-cli/internal/server/loginctl/monitor.go:24-26 | the fallback timer releases the inhibitor only if its cycle is still the current one |
| Loginctl.Manager.OnUnlock | nix/inputs/dms-cli/internal/server/loginctl/monitor.go:30-46 | Unlock clears Locked and LockedHint, cancels the timer and re-acquires the inhibitor |
| Loginctl.Manager.OnPrepareForSleep | nix/inputs/dms-cli/internal/server/loginctl/monitor.go:48-79 | an empty body is ignored; going to sleep opens a new numbered cycle, sends one lock request exactly when lock-before-suspend is set, and installs a fresh locker-ready channel; waking ends the cycle, closes the pending channel, re-binds the session to the path logind reports and re-acquires the inhibitor; the session's sleep flag follows the argument |
| Loginctl.Manager.BeginSleepCycle | nix/inputs/dms-cli/internal/server/loginctl/monitor.go:54-68 | the cycle id increases by one, a lock request is sent exactly when lock-before-suspend is set, and a fresh locker-ready channel is installed |
| Loginctl.Manager.EndSleepCycle | nix/inputs/dms-cli/internal/server/loginctl/monitor.go:69-74 | the cycle ends, its channel is closed, the session becomes `RebindSession` of logind's answers, and the inhibitor is re-acquired |
| Loginctl.Manager.OnPropertiesChanged | nix/inputs/dms-cli/internal/server/loginctl/monitor.go:100-157 | signals for another interface or without a property map change nothing; otherwise the properties are applied and subscribers notified exactly when a handled property was taken |
| Loginctl.Manager.ApplyChangedProperties | nix/inputs/dms-cli/internal/server/loginctl/monitor.go:100-157 | the new state is the changes applied to the old one, and an update is needed exactly when one handled property had the right type |
| Loginctl.Manager.OnNameOwnerChanged | nix/inputs/dms-cli/internal/server/loginctl/monitor.go:84-96 | only a logind restart (old and new owner both set) refreshes the session and, outside a sleep cycle, re-acquires the inhibitor |
| Loginctl.Manager.HandleDBusSignal | nix/inputs/dms-cli/internal/server/loginctl/monitor.go:9-98 | dispatches by signal name: Lock locks, Unlock unlocks and cancels the timer, PrepareForSleep follows its flag, PropertiesChanged applies the map; any other signal changes nothing |
| Loginctl.SleepCycle | nix/inputs/dms-cli/internal/server/loginctl/monitor.go:11-79 | suspend, lock, fallback timer, resume, then a stale timer firing: the session ends locked and awake, out of the cycle, with the inhibitor held again, so a late timer of an old cycle releases nothing |
| Loginctl.SleepAndLock | nix/inputs/dms-cli/internal/server/loginctl/monitor.go:11-79 | suspend, lock, then the fallback timer fires: the session is locked, still preparing for sleep in cycle n + 1, and the inhibitor is released so sleep can proceed |
| BluezManager.DeviceFromProps | nix/inputs/dms-cli/internal/server/bluez/manager.go:175-235 | a device takes its path, Paired and Connected only from boolean true properties, name and address from string properties, and RSSI 0 unless an int16 is given |
| BluezManager.Listed | nix/inputs/dms-cli/internal/server/bluez/manager.go:133-173 | the listed devices are exactly the Device1 objects under the adapter's path, each decoded from its properties |
| BluezManager.IsAdapterDevice | nix/inputs/dms-cli/internal/server/bluez/manager.go:143-151 | a device lies strictly below the adapter's path, so the adapter never counts as its own device |
| BluezManager.ListedAppend | nix/inputs/dms-cli/internal/server/bluez/manager.go:133-173 | listing keeps the order of the managed objects |
| BluezManager.StateChanged | nix/inputs/dms-cli/internal/server/bluez/manager.go:640-668 | no change is reported exactly when power, discovery, the three list lengths and every device's path, pairing and connection agree |
| BluezManager.DevicesDifferFrom | nix/inputs/dms-cli/internal/server/bluez/manager.go:655-665 | the device lists agree from the given index on exactly when no listing differs |
| BluezManager.StateChangedIgnoresDetails | nix/inputs/dms-cli/internal/server/bluez/manager.go:640-668 | a rename, an RSSI change or a trust change of a device is not reported |
| BluezManager.Manager.constructor | nix/inputs/dms-cli/internal/server/bluez/manager.go:19-78 | starts unpowered, not discovering, with no devices, no pending pairings and no queued events |
| BluezManager.Manager.UpdateDevices | nix/inputs/dms-cli/internal/server/bluez/manager.go:133-173 | an error is returned and nothing changes; otherwise the device list is replaced and the paired and connected lists are its filtered sublists |
| BluezManager.UpdatedListsAreSublists | nix/inputs/dms-cli/internal/server/bluez/manager.go:155-163 | a device is in the paired (connected) list exactly when it is listed and paired (connected) |
| BluezManager.Manager.HandleAdapterPropertiesChanged | nix/inputs/dms-cli/internal/server/bluez/manager.go:331-353 | Powered and Discovering follow boolean changes and nothing else; subscribers are notified exactly when one of them arrived |
| BluezManager.Manager.HandleDevicePropertiesChanged | nix/inputs/dms-cli/internal/server/bluez/manager.go:355-395 | a device that becomes paired while its pairing is pending is removed from the pending set and auto-connected; a Paired, Connected or Trusted change queues a device refresh |
| BluezManager.Manager.PairDevice | nix/inputs/dms-cli/internal/server/bluez/manager.go:568-583 | returns the pairing error; a successful request leaves the device pending, a failed one removes it |
| BluezManager.PairThenPaired | nix/inputs/dms-cli/internal/server/bluez/manager.go:355-395 | pairing followed by the Paired signal leaves no pending entry and queues an auto-connect, then a refresh |
| ConfigDeployer.ShouldReplaceConfig | nix/inputs/dms-cli/internal/config/deployer.go:56-62 | with no replacement map every configuration is deployed; with one, a configuration is deployed exactly when it is unlisted or switched on |
| ConfigDeployer.MarkedConfigsDeployed | nix/inputs/dms-cli/internal/config/deployer.go:56-62 | every existing configuration the configuration screen marks is redeployed |
| ConfigDeployer.SwitchedOffNotDeployed | nix/inputs/dms-cli/internal/config/deployer.go:56-62 | a configuration switched off in the map is not deployed |
| ConfigDeployer.TerminalCommand | nix/inputs/dms-cli/internal/config/deployer.go:155-164 | kitty and alacritty get their own command, every other terminal falls back to "ghostty" |
| ConfigDeployer.TerminalCommandsDistinct | nix/inputs/dms-cli/internal/config/deployer.go:497-506 | the three known terminals get three different commands |
| ConfigDeployer.Scan | nix/inputs/dms-cli/internal/config/deployer.go:419 | the spans found are matches of the pattern, in order, without overlap, starting at the leftmost match, and none are found exactly when nothing matches |
| ConfigDeployer.ScanCovers | nix/inputs/dms-cli/internal/config/deployer.go:540 | every position where the pattern matches lies inside some span found, so no match is skipped |
| ConfigDeployer.ScanFrom | nix/inputs/dms-cli/internal/config/deployer.go:419 | the first span found is the leftmost match, and the search resumes after its end |
| ConfigDeployer.ScanNone | nix/inputs/dms-cli/internal/config/deployer.go:419 | with no match ahead nothing is found |
| ConfigDeployer.InsertedParts | nix/inputs/dms-cli/internal/config/deployer.go:440-452 | the built text is the part before the insertion point, the comment, each kept section followed by a newline, then the rest, unchanged |
| ConfigDeployer.BuildInserted | nix/inputs/dms-cli/internal/config/deployer.go:560-573 | the string builder produces exactly that text |
| ConfigDeployer.MergeHyprlandMonitorSections | nix/inputs/dms-cli/internal/config/deployer.go:533-574 | with no monitor lines in the old file the new text is kept; without the MONITOR CONFIG header it fails with "could not find MONITOR CONFIG section"; otherwise the old monitor lines go after the header of the text with the example monitor removed, under their comment |
| ConfigDeployer.InsertedAfterHeader | nix/inputs/dms-cli/internal/config/deployer.go:552-559 | the insertion point is just after the first two-line MONITOR CONFIG header that starts a line |
| ConfigDeployer.MonitorLinesKept | nix/inputs/dms-cli/internal/config/deployer.go:537-540 | every monitor line of the old file, commented or not, ends one of the lines carried over |
| ConfigDeployer.ExampleMonitorsRemoved | nix/inputs/dms-cli/internal/config/deployer.go:548-549 | every "# monitor = eDP-2" example line is removed |
| ConfigDeployer.HyprlandConfigToWrite | nix/inputs/dms-cli/internal/config/deployer.go:511-520 | without an old file or old monitor lines, or when the merge fails for want of a monitor header, the generated text is written unchanged; when the merge succeeds the written text is the merged one, the old monitor lines after the generated header line under the merge comment |
| ConfigDeployer.MergeNiriOutputSections | nix/inputs/dms-cli/internal/config/deployer.go:414-453 | with no output sections in the old file the new text is kept; with no closing-brace line it fails with "could not find insertion point for output sections"; otherwise the old sections go after the first closing-brace line of the text without the example output, under their comment |
| ConfigDeployer.InsertedAfterCloseLine | nix/inputs/dms-cli/internal/config/deployer.go:430-438 | the insertion point is just after the first line consisting only of "}" |
| ConfigDeployer.OutputSectionsKept | nix/inputs/dms-cli/internal/config/deployer.go:416-419 | every output section of the old file, commented or not, lies inside a section carried over |
| ConfigDeployer.ExtractedAreOutputs | nix/inputs/dms-cli/internal/config/deployer.go:416-419 | each section carried over starts a line, ends with "}" and names an output |
| ConfigDeployer.ExampleOutputsRemoved | nix/inputs/dms-cli/internal/config/deployer.go:427-428 | every commented example output "eDP-2" is removed |
| ConfigDeployer.AsWrittenOutputInsertPos | nix/inputs/dms-cli/internal/config/deployer.go:430-438 | the source's insertion point, taken from the text before the example output is removed, is just after a "}" of that text |
| ConfigDeployer.AsWrittenInsertPosOverruns | nix/inputs/dms-cli/internal/config/deployer.go:427-442 | a generated text whose example output precedes the closing brace gives an insertion point (20) past the end of the shortened text (10 characters), where slicing fails |
| GreeterInstaller.CompositorChoice | nix/inputs/dms-cli/internal/greeter/installer.go:36-61 | a read error is reported as "error reading input: …"; the trimmed answer "1" picks the first compositor and "2" the second when there is one; anything else is "invalid choice" |
| GreeterInstaller.GreeterUserShape | nix/inputs/dms-cli/internal/greeter/installer.go:408-410 | the replacement user line is itself a user line and not a command line |
| GreeterInstaller.CleanedLines | nix/inputs/dms-cli/internal/greeter/installer.go:404-415 | after cleaning no line is a command line, and every line is either the greeter user line or an original line that was not a user line |
| GreeterInstaller.CleanedKeeps | nix/inputs/dms-cli/internal/greeter/installer.go:404-415 | every original line that is neither a command nor a user line is kept |
| GreeterInstaller.CleanLines | nix/inputs/dms-cli/internal/greeter/installer.go:404-415 | the cleaning loop computes the cleaned lines |
| GreeterInstaller.CommandSlotFirst | nix/inputs/dms-cli/internal/greeter/installer.go:431-445 | the command goes after the first non-empty line of the default session that is not a header, comment or user line, and there is no such line before it |
| GreeterInstaller.PlacedOnce | nix/inputs/dms-cli/internal/greeter/installer.go:427-449 | placing the command inserts it exactly once, at the chosen index, and leaves every other line in order; it is the only command line |
| GreeterInstaller.PlaceCommand | nix/inputs/dms-cli/internal/greeter/installer.go:427-449 | the placement loop computes that placement |
| GreeterInstaller.WrapperCommand | nix/inputs/dms-cli/internal/greeter/installer.go:417-421 | the wrapper is "dms-greeter" exactly when it is on the PATH, else "/usr/local/bin/dms-greeter" |
| GreeterInstaller.GreetdCommand | nix/inputs/dms-cli/internal/greeter/installer.go:423-425 | the command line is trimmed, is a command line, and starts with the wrapper and --command |
| GreeterInstaller.ConfigureGreetdText | nix/inputs/dms-cli/internal/greeter/installer.go:391-451 | the new configuration is the existing file, or the default one when it cannot be read, cleaned, with the command placed, joined by newlines |
| GreeterInstaller.GreetdConfigured | nix/inputs/dms-cli/internal/greeter/installer.go:391-451 | reading the written file back gives the placed lines: the command exactly once at its slot, and every user line is the greeter user |
| GreeterInstaller.Quote | nix/inputs/dms-cli/internal/greeter/installer.go:472-474 | an argument is wrapped in single quotes |
| GreeterInstaller.Escaped | nix/inputs/dms-cli/internal/greeter/installer.go:473 | a text without single quotes is left as it is |
| GreeterInstaller.QuotedArgs | nix/inputs/dms-cli/internal/greeter/installer.go:470-474 | each argument is quoted, in order |
| GreeterInstaller.QuotedArgsRead | nix/inputs/dms-cli/internal/greeter/installer.go:470-475 | the shell splits the quoted argument list back into exactly the original arguments, whatever they contain |
| GreeterInstaller.EscapedRead | nix/inputs/dms-cli/internal/greeter/installer.go:473 | an escaped text inside single quotes reads back as the text |
| GreeterInstaller.SudoArgv | nix/inputs/dms-cli/internal/greeter/installer.go:466-480 | the corrected quoting: without a password the command runs as sudo with its arguments; with one it runs through bash -c with the shell-escaped password piped into sudo -S (the echo as the source writes it is `EchoPasswordAsWritten`) |
| GreeterInstaller.SudoScript | nix/inputs/dms-cli/internal/greeter/installer.go:477 | the corrected quoting: the script starts with the echo of the shell-escaped password piped into sudo -S (that this echo reads back as the password is `EchoPasswordRead`; the echo as the source writes it is `EchoPasswordAsWritten`) |
| GreeterInstaller.EchoPasswordAsWritten | nix/inputs/dms-cli/internal/greeter/installer.go:477 | the source's echo, which puts the password between quotes without escaping it, agrees with the escaped echo for passwords without a single quote |
| GreeterInstaller.AsWrittenPasswordBreaks | nix/inputs/dms-cli/internal/greeter/installer.go:477 | for the password "it's" the as-written echo does not reach the shell as the two words echo and the password, while the escaped echo does |
| GreeterInstaller.EchoPasswordRead | nix/inputs/dms-cli/internal/greeter/installer.go:473-477 | the escaped echo always reaches the shell as exactly echo and the password |
| Dank16Terminals.KittyIndexes | nix/inputs/dms-cli/internal/dank16/terminals.go:22-40 | the Kitty table has 16 entries, the k-th reading colour k |
| Dank16Terminals.KittyNames | nix/inputs/dms-cli/internal/dank16/terminals.go:22-40 | the k-th Kitty entry is named color0 … color15 |
| Dank16Terminals.KittyLines | nix/inputs/dms-cli/internal/dank16/terminals.go:42-47 | sixteen lines, the k-th naming its entry and that entry's colour |
| Dank16Terminals.KittyLinesNamed | nix/inputs/dms-cli/internal/dank16/terminals.go:21-48 | line k is "color" k, three spaces, then colour k |
| Dank16Terminals.GenerateKittyTheme | nix/inputs/dms-cli/internal/dank16/terminals.go:21-48 | the writer's loop emits the sixteen lines, each ending in a newline |
| Dank16Terminals.KittyThemeLines | nix/inputs/dms-cli/internal/dank16/terminals.go:21-48 | split on newlines, the Kitty theme is exactly the sixteen colour lines followed by nothing |
| Dank16Terminals.FootIndexes | nix/inputs/dms-cli/internal/dank16/terminals.go:52-70 | the Foot table has 16 entries, the k-th reading colour k |
| Dank16Terminals.FootNames | nix/inputs/dms-cli/internal/dank16/terminals.go:52-70 | entries 0-7 are regular0 … regular7 and entries 8-15 bright0 … bright7 |
| Dank16Terminals.FootValue | nix/inputs/dms-cli/internal/dank16/terminals.go:74-75 | a colour loses one leading '#' and is otherwise kept |
| Dank16Terminals.FootLines | nix/inputs/dms-cli/internal/dank16/terminals.go:72-77 | sixteen name=value lines, one per table entry |
| Dank16Terminals.FootLinesNamed | nix/inputs/dms-cli/internal/dank16/terminals.go:51-79 | regular k takes colour k and bright k takes colour k + 8, without the '#' |
| Dank16Terminals.GenerateFootTheme | nix/inputs/dms-cli/internal/dank16/terminals.go:51-79 | the writer's loop emits the sixteen lines, each ending in a newline |
| Dank16Terminals.AlacrittyTable | nix/inputs/dms-cli/internal/dank16/terminals.go:82-100 | the Alacritty table lists the eight colour names in the normal section for colours 0-7, then again in the bright section for colours 8-15 |
| Dank16Terminals.PadRightSpec | nix/inputs/dms-cli/internal/dank16/terminals.go:114 | padding to a width keeps the text and adds spaces up to that width, never truncating |
| Dank16Terminals.WriteSections | nix/inputs/dms-cli/internal/dank16/terminals.go:102-117 | the section-tracking loop renders the table: a header when the section changes, a blank line between sections, one padded name = 'colour' line per entry |
| Dank16Terminals.GenerateAlacrittyTheme | nix/inputs/dms-cli/internal/dank16/terminals.go:81-118 | the writer renders the Alacritty table |
| Dank16Terminals.AlacrittyLayout | nix/inputs/dms-cli/internal/dank16/terminals.go:106-117 | the theme is the normal header and its eight lines, one blank line, then the bright header and its eight lines |
| Dank16Terminals.TableLayout | nix/inputs/dms-cli/internal/dank16/terminals.go:102-117 | any table shaped like the Alacritty one renders to that layout |
| Dank16Terminals.SectionLines | nix/inputs/dms-cli/internal/dank16/terminals.go:114 | the eight lines of a section pair the colour names with the section's eight colours |
| Dank16Terminals.GhosttyLines | nix/inputs/dms-cli/internal/dank16/terminals.go:121-124 | one "palette = i=colour" line per colour, in order, for any number of colours |
| Dank16Terminals.GenerateGhosttyTheme | nix/inputs/dms-cli/internal/dank16/terminals.go:120-126 | the writer's loop emits those lines, each ending in a newline |
| Dank16Terminals.GhosttyIndexReadsBack | nix/inputs/dms-cli/internal/dank16/terminals.go:123 | the index written in a palette line reads back as that index |
| Dank16Terminals.TerminatedSplitsBack | nix/inputs/dms-cli/internal/dank16/terminals.go:120-126 | newline-terminated lines without newlines split back into the same lines and a final empty piece |
| DmsDetector.Names | nix/inputs/dms-cli/internal/dms/detector.go:69-80 | the names of the dependencies, in order |
| DmsDetector.PutAll | nix/inputs/dms-cli/internal/dms/detector.go:69-71 | storing the Hyprland dependencies adds exactly their names as keys |
| DmsDetector.PutAllKeyed | nix/inputs/dms-cli/internal/dms/detector.go:69-71 | each stored entry is under its own name and is either a stored dependency or an untouched old entry |
| DmsDetector.StoreAll | nix/inputs/dms-cli/internal/dms/detector.go:69-71 | the storing loop computes that map |
| DmsDetector.MergeOne | nix/inputs/dms-cli/internal/dms/detector.go:75-81 | merging one dependency adds its name and nothing else |
| DmsDetector.MergeOneEntries | nix/inputs/dms-cli/internal/dms/detector.go:75-81 | an entry is replaced only by a dependency of strictly greater status, and a new name gets that dependency |
| DmsDetector.MergeOneKeepsMax | nix/inputs/dms-cli/internal/dms/detector.go:75-81 | after merging, no entry has lower status than before or than the merged dependency |
| DmsDetector.MergeGreater | nix/inputs/dms-cli/internal/dms/detector.go:73-82 | merging the niri dependencies adds exactly their names |
| DmsDetector.MergeGreaterSnoc | nix/inputs/dms-cli/internal/dms/detector.go:73-82 | the merge handles the dependencies one after another, in order |
| DmsDetector.MergeGreaterEntries | nix/inputs/dms-cli/internal/dms/detector.go:73-82 | every replaced or new entry comes from the niri list and only a strictly greater status replaces |
| DmsDetector.MergeGreaterKeepsMax | nix/inputs/dms-cli/internal/dms/detector.go:73-82 | each name ends with at least the status of every listing of it |
| DmsDetector.MergeAll | nix/inputs/dms-cli/internal/dms/detector.go:73-82 | the merging loop computes that merge |
| DmsDetector.Merged | nix/inputs/dms-cli/internal/dms/detector.go:66-82 | the combined map has exactly the names of both lists, each under its own name |
| DmsDetector.MapValues | nix/inputs/dms-cli/internal/dms/detector.go:84-88 | the map's values come out once each, in some order |
| DmsDetector.GetDependencyStatus | nix/inputs/dms-cli/internal/dms/detector.go:55-91 | the first detection error is returned; otherwise each name of either list appears exactly once, carrying its merged dependency |
| DmsDetector.Infos | nix/inputs/dms-cli/internal/dms/detector.go:134-139 | each dependency becomes its info, in order |
| DmsDetector.GetInstalledComponents | nix/inputs/dms-cli/internal/dms/detector.go:119-143 | an error gives no components; otherwise the infos of the dependencies, without hyprland and niri themselves on NixOS |
| DmsDetector.InstalledComponentsMembers | nix/inputs/dms-cli/internal/dms/detector.go:128-140 | a component is listed exactly when a dependency gives it and it is not a compositor hidden on NixOS |
| DmsViewsFeatures.LabelInjective | nix/inputs/dms-cli/internal/dms/views_features.go:491-497 | the four category names are distinct |
| DmsViewsFeatures.MembersIn | nix/inputs/dms-cli/internal/dms/views_features.go:499-526 | a dependency is in a category exactly when it is listed, not excluded, and its name places it there |
| DmsViewsFeatures.MembersAppend | nix/inputs/dms-cli/internal/dms/views_features.go:499-526 | a category keeps the order of the input |
| DmsViewsFeatures.TableAppend | nix/inputs/dms-cli/internal/dms/views_features.go:499-526 | each dependency not on the exclude list is appended to exactly one category |
| DmsViewsFeatures.CategorizeDependencies | nix/inputs/dms-cli/internal/dms/views_features.go:491-529 | the result has the four categories and each holds exactly its members, in order |
| DmsViewsFeatures.CategoriesPartition | nix/inputs/dms-cli/internal/dms/views_features.go:499-526 | the categories together hold no more dependencies than the input |
| DmsViewsFeatures.ConcatCategoriesInOrder | nix/inputs/dms-cli/internal/dms/views_features.go:253-265 | the filtered list is the Shell, Shared, Hyprland and Niri categories, concatenated in that order |
| DmsViewsFeatures.GetFilteredDeps | nix/inputs/dms-cli/internal/dms/views_features.go:253-265 | the method computes that list |
| DmsViewsFeatures.FilteredDepsMembers | nix/inputs/dms-cli/internal/dms/views_features.go:253-265 | the filtered list holds exactly the listed dependencies not on the exclude list |
| DmsViewsFeatures.DepAtVisualIndex | nix/inputs/dms-cli/internal/dms/views_features.go:267-273 | there is no dependency exactly when the index is outside the filtered list; otherwise it is the one shown at that position |
| DmsHandlersFeatures.AnyToggled | nix/inputs/dms-cli/internal/dms/handlers_features.go:40-46 | true exactly when some dependency is toggled on |
| DmsHandlersFeatures.UpdateUpdateView | nix/inputs/dms-cli/internal/dms/handlers_features.go:18-59 | ctrl+c and q quit; esc returns to the main menu; up and down move the selection within the filtered list; space toggles the dependency shown there; enter asks for the password only when something is toggled; other keys do nothing; the selection stays in range |
| DmsHandlersFeatures.SelectNextDep | nix/inputs/dms-cli/internal/dms/handlers_features.go:31-34 | down moves one step unless already on the last dependency |
| DmsHandlersFeatures.ToggleSelectedDep | nix/inputs/dms-cli/internal/dms/handlers_features.go:35-38 | space flips the toggle of the dependency shown at the selection, if there is one |
| DmsHandlersFeatures.ConfirmUpdates | nix/inputs/dms-cli/internal/dms/handlers_features.go:39-56 | enter goes to the password screen with a cleared input when something is toggled, else back to the main menu |
| DmsHandlersFeatures.UpdatePasswordView | nix/inputs/dms-cli/internal/dms/handlers_features.go:61-85 | ctrl+c quits, esc clears and goes back, enter validates a non-empty password, backspace removes the last character, a printable one-character key is typed; the input stays printable |
| DmsHandlersFeatures.UpdateProgressView | nix/inputs/dms-cli/internal/dms/handlers_features.go:87-99 | only esc on a finished update changes the model, returning to the main menu with the progress and logs cleared |
| DmsHandlersFeatures.ToggledDepsMembers | nix/inputs/dms-cli/internal/dms/handlers_features.go:136-145 | a dependency is updated exactly when it is listed and toggled on |
| DmsHandlersFeatures.PerformUpdate | nix/inputs/dms-cli/internal/dms/handlers_features.go:133-164 | with nothing toggled the update completes at once; otherwise it installs the toggled dependencies for niri when niri is installed, else Hyprland, with reinstall flags set exactly for the toggled names |
| DmsModel.ToPluginInfo | nix/inputs/dms-cli/internal/dms/plugins_handlers.go:143-157 | a plugin becomes its info with the same fields, marked first-party exactly when its repository is under the project's organisation |
| DmsModel.PluginRoundTrip | nix/inputs/dms-cli/internal/dms/plugins_handlers.go:123-157 | converting an info to a plugin and back keeps every field and recomputes the first-party mark |
| DmsPluginsHandlers.MoveUp | nix/inputs/dms-cli/internal/dms/plugins_handlers.go:16-19 | up moves one step unless at the top and keeps the selection in range |
| DmsPluginsHandlers.MoveDown | nix/inputs/dms-cli/internal/dms/plugins_handlers.go:20-23 | down moves one step unless at the last item and keeps the selection in range |
| DmsPluginsHandlers.UpdatePluginsMenu | nix/inputs/dms-cli/internal/dms/plugins_handlers.go:10-44 | ctrl+c and q quit, esc returns to the main menu, enter or space on Browse or Installed opens that screen with a fresh load, other keys do nothing; the selection stays in range |
| DmsPluginsHandlers.UpdatePluginsBrowse | nix/inputs/dms-cli/internal/dms/plugins_handlers.go:46-72 | esc clears the search and returns to the menu, enter opens the selected plugin's detail, / starts a search, up and down move within the list |
| DmsPluginsHandlers.UpdatePluginDetail | nix/inputs/dms-cli/internal/dms/plugins_handlers.go:74-90 | i installs the selected plugin exactly when it is not yet installed; esc goes back; nothing else changes the model |
| DmsPluginsHandlers.UpdatePluginsInstalled | nix/inputs/dms-cli/internal/dms/plugins_handlers.go:197-217 | the installed list moves and opens like the browse list, and esc returns to the menu |
| DmsPluginsHandlers.UpdatePluginInstalledDetail | nix/inputs/dms-cli/internal/dms/plugins_handlers.go:219-232 | u uninstalls the selected plugin exactly when the selection is in the list; esc goes back |
| DmsPluginsHandlers.ToPlugins | nix/inputs/dms-cli/internal/dms/plugins_handlers.go:123-137 | each info becomes a plugin, in order |
| DmsPluginsHandlers.ToPluginInfos | nix/inputs/dms-cli/internal/dms/plugins_handlers.go:143-158 | each plugin becomes an info, in order |
| DmsPluginsHandlers.ListForm | nix/inputs/dms-cli/internal/dms/plugins_handlers.go:142-158 | the conversion loop computes that list |
| DmsPluginsHandlers.SearchResultsOrder | nix/inputs/dms-cli/internal/dms/plugins_handlers.go:139-140 | search results are no more than the plugins, correctly marked first-party, and first-party plugins come before all others |
| DmsPluginsHandlers.SearchResultsMatch | nix/inputs/dms-cli/internal/dms/plugins_handlers.go:139-140 | every search result is a listed plugin that matches the query |
| DmsPluginsHandlers.FilterPlugins | nix/inputs/dms-cli/internal/dms/plugins_handlers.go:116-161 | the shown list becomes the search results for the query and the selection returns to the top |
| DmsPluginsHandlers.UpdatePluginSearch | nix/inputs/dms-cli/internal/dms/plugins_handlers.go:92-114 | esc cancels the search, enter applies it, backspace removes the last character, a one-character key is typed, ctrl+c quits |
| DmsPluginsViews.WrapText | nix/inputs/dms-cli/internal/dms/plugins_views.go:347-367 | text without words is returned as it is; otherwise the words are packed greedily into lines of the given width and joined by newlines |
| TuiModel.Model.constructor | nix/inputs/dms-cli/internal/tui/app.go:43-84 | the wizard starts on the welcome screen, loading, with no error, "Initializing package installation" as progress, and no logs, selection, flags or known configurations |
| TuiViewsConfig.MarkExisting | nix/inputs/dms-cli/internal/tui/views_config.go:211-220 | every configuration found on disk is switched on for replacement, no other flag changes, and no key is added except those |
| TuiViewsConfig.MarkExistingIdempotent | nix/inputs/dms-cli/internal/tui/views_config.go:211-220 | marking the same configurations twice changes nothing more |
| TuiViewsConfig.FirstExisting | nix/inputs/dms-cli/internal/tui/views_config.go:211-220 | the first configuration that exists, or none exactly when none does |
| TuiViewsConfig.MarkAndSelect | nix/inputs/dms-cli/internal/tui/views_config.go:211-220 | the marking loop marks the existing configurations and selects the first one, keeping the selection when there is none |
| TuiViewsConfig.AnyExisting | nix/inputs/dms-cli/internal/tui/views_config.go:222-228 | true exactly when some configuration exists |
| TuiViewsConfig.ApplyConfigCheck | nix/inputs/dms-cli/internal/tui/views_config.go:209-237 | the found configurations are stored and marked; with one existing the confirmation screen shows it selected, with none deployment starts at once |
| TuiViewsConfig.LastExistingBefore | nix/inputs/dms-cli/internal/tui/views_config.go:242-250 | the last existing configuration among the first n, none exactly when none of them exists |
| TuiViewsConfig.FirstExistingFrom | nix/inputs/dms-cli/internal/tui/views_config.go:251-259 | the first existing configuration from index i on, none exactly when none of them exists |
| TuiViewsConfig.AboveIsNearest | nix/inputs/dms-cli/internal/tui/views_config.go:242-250 | up leads to an existing configuration above exactly when there is one, and then to the nearest; otherwise the selection stays |
| TuiViewsConfig.BelowIsNearest | nix/inputs/dms-cli/internal/tui/views_config.go:251-259 | down leads to an existing configuration below exactly when there is one, and then to the nearest; otherwise the selection stays |
| TuiViewsConfig.PrevExisting | nix/inputs/dms-cli/internal/tui/views_config.go:242-250 | the up loop ends on `Above` of the selection: the nearest existing configuration above, or the selection itself |
| TuiViewsConfig.NextExisting | nix/inputs/dms-cli/internal/tui/views_config.go:251-259 | the down loop ends on `Below` of the selection: the nearest existing configuration below, or the selection itself |
| TuiViewsConfig.HandleConfigKey | nix/inputs/dms-cli/internal/tui/views_config.go:240-270 | up and down move the selection to `Above`/`Below` of it; Space flips the replace flag of the selected entry when it exists; Enter moves to deploying; every other part of the state is kept, and a selection on an existing entry stays on one |
| TuiViewsConfig.UpdateConfigConfirmationState | nix/inputs/dms-cli/internal/tui/views_config.go:201-274 | a failed check moves to the error screen with the error; a successful one stores the configurations, marks the existing ones and selects the first, or deploys at once when none exists; a key sets the selection, the flags and the screen as `HandleConfigKey` does; any other message changes nothing |
| TuiViewsInstall.WrapText | nix/inputs/dms-cli/internal/tui/views_install.go:11-37 | text within the width is returned as it is; longer text without words becomes empty; otherwise the words are packed greedily into lines of the width, joined by newlines |
| TuiViewsInstall.AppendLog | nix/inputs/dms-cli/internal/tui/views_install.go:212-217 | the log gains the entry at its end and is a suffix of the old log plus the entry; a log shorter than 50 entries just grows, a full one keeps exactly its last 50 entries |
| TuiViewsInstall.UpdateInstallingPackagesState | nix/inputs/dms-cli/internal/tui/views_install.go:207-234 | progress is stored and its output logged; an unfinished install keeps listening; a failure moves to the error screen; a success clears the logs and checks the existing configurations; other messages change nothing |
| TextWrap.Lines | nix/inputs/dms-cli/internal/tui/views_install.go:20-34 | each line is its group of words joined by single spaces |
| TextWrap.ExtendLine | nix/inputs/dms-cli/internal/tui/views_install.go:23-24 | a word that fits extends the current line and the wrapping stays greedy |
| TextWrap.StartLine | nix/inputs/dms-cli/internal/tui/views_install.go:25-28 | a word that does not fit starts a new line and the wrapping stays greedy |
| TextWrap.GreedyWrapUnique | nix/inputs/dms-cli/internal/dms/plugins_views.go:347-367 | there is only one greedy wrapping of a word list at a width, so both wrappers give the same lines |
| TextWrap.WrappedLines | nix/inputs/dms-cli/internal/dms/plugins_views.go:347-367 | the wrapped text splits back into its lines, none of them empty, and does not end in a newline |
| Sorting.SortSlice | nix/inputs/dms-cli/internal/server/network/helpers.go:25 | the sort leaves a permutation of its input in which no element is less than the one before it |
| Sorting.AdjacentSortedIsSorted | nix/inputs/dms-cli/internal/server/brightness/manager.go:92 | for a strict weak order, neighbours in order means every pair in order |
| Sorting.StablePartition | nix/inputs/dms-cli/internal/plugins/search.go:94-105 | a stable sort on a two-valued comparator puts the matching elements first and the others after, each group in its original order |
| Sorting.Partition | nix/inputs/dms-cli/internal/plugins/search.go:94-105 | the two groups are computed in one pass |
| Sorting.FilterMembers | nix/inputs/dms-cli/internal/plugins/search.go:94-105 | an element is kept exactly when it is in the input and satisfies the predicate |
| Sorting.FilterSplitsMultiset | nix/inputs/dms-cli/internal/plugins/search.go:94-105 | the two groups together hold exactly the input |
| DepsTypes.Rank | nix/inputs/dms-cli/internal/deps/detector.go:7-15 | the status codes run from 0 to 3, with missing alone at 0 |
| DepsTypes.RankInjective | nix/inputs/dms-cli/internal/deps/detector.go:7-15 | distinct statuses have distinct codes |

## Left out

- D-Bus, files, subprocesses, sockets and sudo are not modelled. What they return becomes a parameter of the modelled operation, and what the code sends to them becomes a state change or a result. This covers the iwd and NetworkManager calls, the logind Lock call, the ddcutil/i2c reads and writes, the CUPS IPP client, the greeter's file writes and the deployer's writes.
- Goroutines, mutexes, channels and timers are not modelled. Each broker or manager operation is one atomic step. The loginctl goroutine that waits on the sleep-ready channel is reduced to the release check it runs afterwards.
- Go map iteration order is not specified by Go. Where the source iterates a map, the model takes the entries as a sequence in iteration order. This covers the networkd links, the CUPS replies, the bluez managed objects and the output of `GetDependencyStatus`.
- `GetSupportedDistros` is not modelled, because its order is Go map order.
- The scan loops that discover sysfs devices and DDC buses are not modelled (filesystem and i2c I/O). Their filters are modelled.
- The exponential brightness curves are not modelled, because they are floating point. Neither are the float progress fractions of the installers, the HSL dimming in `sl-darken`, the dank16 colour maths or JSON output (`GenerateJSON`).
- The brightness percent/value round trips are proved only for ranges of at least 100 steps (sysfs: range ≥ 99, DDC: max ≥ 100). For smaller ranges the conversion can lose more than one step.
- BrightnessManager.Manager.SetBrightness: when the backend reports an error, the source rescans all devices (I/O). The model keeps the state it wrote.
- The DDC debounce timers and `setBrightnessImmediate` are not modelled. `BrightnessDdc.DDCBackend.SetBrightness` models the pending-value bookkeeping only.
- The os-release scanner is not modelled. Lines are given as a sequence, and `runtime.GOOS`/`GOARCH` are parameters.
- `strings.ToLower` is modelled for ASCII letters only. Strings are sequences of code points, not UTF-8 bytes.
- The CUPS IPP attribute names are those of RFC 8011. The IPP client library is not part of this model.
- Random token generation for the subscription brokers is a parameter.
- ConfigDeployer.MergeHyprlandMonitorSections: requires that the MONITOR CONFIG header does not end the text. In that case the source's slice would panic.
- DmsHandlersFeatures.UpdateUpdateView: Go maps inside the TUI model are shared between value copies. The model treats the whole TUI model as a value.
- GreeterInstaller: `commandExists` and `packageInstalled` are parameters. `forceQuickshellGit` and `forceDMSGit` are constants.
- The TUI spinner, lipgloss styles and all `render*`/`view*` output are not modelled. Only the key handling and state transitions are.
- The AGS library's own widget constructors are not modelled. Widgets are the property maps passed to them, and icons are names. The services and utils wrappers are left out because their polling and listener semantics live inside AGS.
- Other distributions' installers are not modelled. They repeat the Arch categoriser's pattern around subprocess I/O.
- Loginctl.RebindSession: the new session object and the restarted signal pump (a fresh signal channel and subscription) are not modelled. Only the session path and the refreshed properties are.
- Loginctl.Manager.BeginSleepCycle: the Lock call is counted in `lockRequests`. Its D-Bus reply, the rebinding of the session after a failed call and the one retry after that are not modelled.
- IwdWifi.UpdateState: the Wi-Fi network list that `updateWiFiNetworks` reads from iwd is a field of the reading. When that read fails, or the reading has no device or station, the old list is kept.

## Findings

| source | as written | input that shows it | evidently intended | confidence | as-written member | corrected member |
|---|---|---|---|---|---|---|
| nix/inputs/dms-cli/internal/server/network/manager.go:191-194 | a small nonzero WiFi signal change returns "no change" before the connecting flag, the last error and the network lists are compared | signal 60 to 62 while a connection attempt ends with error "bad-credentials" | insignificant signal jitter alone is ignored, but the other differences are still reported | high (not executed) | NetworkManager.SmallSignalChangeHidesError | NetworkManager.IntendedRule |
| nix/inputs/dms-cli/internal/distros/base.go:292 | the quickshell gate compares version parts as strings, so "10" sorts before "2" | `quickshell 0.10.0` is judged older than 0.2.0 and marked as needing an update | numeric comparison of the parts | high (not executed) | DistrosBase.LexicalGateRejects010 | DistrosBase.NumericGate |
| nix/inputs/dms-cli/internal/config/deployer.go:427-442 | the insertion point after the example output block is found in the new config but used to slice the merged config, which is shorter once that block is removed | new config `/-output "eDP-2" {⏎}⏎input {⏎}` with existing `output "A" {}`: position 20 in a 10-character text, so the slice panics | find the insertion point in the merged text | high (not executed) | ConfigDeployer.AsWrittenInsertPosOverruns | ConfigDeployer.MergeNiriOutputSections |
| nix/inputs/dms-cli/internal/greeter/installer.go:477 | the sudo password is put between single quotes without escaping | the password `it's` makes the shell see unbalanced quotes, so sudo is not given the password | quote the password the way the command's own arguments are quoted (lines 472-474) | high (not executed) | GreeterInstaller.AsWrittenPasswordBreaks | GreeterInstaller.EchoPasswordRead |
