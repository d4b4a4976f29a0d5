/** The NetworkManager secret agent's decisions: which secret fields to ask
  * the user for, why, how a connection's settings are read, and what to
  * answer NetworkManager before and after the prompt. */
module NMAgent {
  import opened Common
  import opened NetworkTypes

  /** The D-Bus variant values the agent looks at. */
  datatype Variant = VString(s: string) | VBytes(b: seq<bv8>) | VUint32(u: bv32) | VOther

  /** A connection's settings: setting name to key to value. */
  type SettingMap = map<string, map<string, Variant>>

  const WirelessType: string := "802-11-wireless"
  const WirelessSecurity: string := "802-11-wireless-security"
  const Dot1x: string := "802-1x"
  const VpnSetting: string := "vpn"

  const NoSecretsError: string := "org.freedesktop.NetworkManager.SecretAgent.Error.NoSecrets"
  const UserCanceledError: string := "org.freedesktop.NetworkManager.SecretAgent.Error.UserCanceled"
  const FailedError: string := "org.freedesktop.NetworkManager.SecretAgent.Error.Failed"

  /** The string stored under `group`/`key`, or "" when it is missing or not
    * a string. */
  function StringAt(conn: SettingMap, group: string, key: string): (s: string)
    ensures s != "" ==> group in conn && key in conn[group] && conn[group][key] == VString(s)
  {
    if group in conn && key in conn[group] && conn[group][key].VString? then conn[group][key].s else ""
  }

  /** Go's `string(b)` on the SSID bytes: one character per byte. */
  function BytesToString(b: seq<bv8>): (s: string)
    ensures |s| == |b|
    ensures forall i :: 0 <= i < |b| ==> s[i] as int == b[i] as int
  {
    seq(|b|, i requires 0 <= i < |b| => (b[i] as int) as char)
  }

  /** `readSSID`: the wireless SSID, given either as bytes or as a string;
    * "" when absent. */
  function ReadSSID(conn: SettingMap): (ssid: string)
    ensures ssid != "" ==> WirelessType in conn && "ssid" in conn[WirelessType]
    ensures WirelessType in conn && "ssid" in conn[WirelessType] ==>
              match conn[WirelessType]["ssid"]
              case VString(s) => ssid == s
              case VBytes(b) => |ssid| == |b|
              case _ => ssid == ""
  {
    if WirelessType in conn && "ssid" in conn[WirelessType] then
      match conn[WirelessType]["ssid"]
      case VBytes(b) => BytesToString(b)
      case VString(s) => s
      case _ => ""
    else ""
  }

  /** `readConnTypeAndName`: the connection type, the display name and the
    * VPN service type. A wireless connection without an id is named after
    * its SSID. */
  function ReadConnTypeAndName(conn: SettingMap): (r: (string, string, string))
    ensures r.0 == StringAt(conn, "connection", "type")
    ensures r.2 == StringAt(conn, VpnSetting, "service-type")
    ensures StringAt(conn, "connection", "id") != "" ==> r.1 == StringAt(conn, "connection", "id")
    ensures StringAt(conn, "connection", "id") == "" ==>
              r.1 == (if r.0 == WirelessType then ReadSSID(conn) else "")
  {
    var connType := StringAt(conn, "connection", "type");
    var name := StringAt(conn, "connection", "id");
    var svc := StringAt(conn, VpnSetting, "service-type");
    (connType, if name == "" && connType == WirelessType then ReadSSID(conn) else name, svc)
  }

  /** `fieldsNeeded`: a PSK for WPA, identity and password for 802.1X, the
    * hints for a VPN, nothing otherwise. */
  function FieldsNeeded(setting: string, hints: seq<string>): (fields: seq<string>)
    ensures setting == WirelessSecurity ==> fields == ["psk"]
    ensures setting == Dot1x ==> fields == ["identity", "password"]
    ensures setting == VpnSetting ==> fields == hints
    ensures setting !in {WirelessSecurity, Dot1x, VpnSetting} ==> fields == []
  {
    if setting == WirelessSecurity then ["psk"]
    else if setting == Dot1x then ["identity", "password"]
    else if setting == VpnSetting then hints
    else []
  }

  const FlagRequestNew: bv32 := 0x2
  const FlagUserRequested: bv32 := 0x4

  /** `reasonFromFlags`: REQUEST_NEW means the stored secret was wrong and
    * takes precedence over USER_REQUESTED. */
  function ReasonFromFlags(flags: bv32): (reason: string)
    ensures reason == "wrong-password" <==> flags & FlagRequestNew != 0
    ensures reason == "user-requested" <==> flags & FlagRequestNew == 0 && flags & FlagUserRequested != 0
    ensures reason in {"wrong-password", "user-requested", "required"}
  {
    if flags & FlagRequestNew != 0 then "wrong-password"
    else if flags & FlagUserRequested != 0 then "user-requested"
    else "required"
  }

  const FlagAgentOwned: bv32 := 1
  const FlagNotRequired: bv32 := 4
  /** The value standing for "could not read the password flags". */
  const UnknownFlags: bv32 := 0xFFFF

  /** The password flags of the setting being asked for: `psk-flags` for
    * WPA, `password-flags` for 802.1X, unknown otherwise. */
  function PasswordFlags(conn: SettingMap, settingName: string): (f: bv32)
    ensures settingName !in {WirelessSecurity, Dot1x} ==> f == UnknownFlags
  {
    var key := if settingName == WirelessSecurity then "psk-flags" else "password-flags";
    if (settingName == WirelessSecurity || settingName == Dot1x)
       && settingName in conn && key in conn[settingName] && conn[settingName][key].VUint32? then
      conn[settingName][key].u
    else UnknownFlags
  }

  /** What the agent returns to NetworkManager: secrets grouped by setting,
    * or a D-Bus error. */
  datatype Answer = Secrets(secrets: map<string, map<string, string>>) | DBusError(name: string)

  /** The answer when no field needs asking: a VPN, or unknown or
    * agent-owned flags, are deferred to other agents; NOT_REQUIRED, or any
    * other flags, is an empty secret set for the setting. */
  function EmptyFieldsAnswer(conn: SettingMap, settingName: string): (a: Answer)
    ensures a.DBusError? ==> a.name == NoSecretsError
    ensures a.DBusError? <==>
              settingName == VpnSetting
              || PasswordFlags(conn, settingName) == UnknownFlags
              || (PasswordFlags(conn, settingName) & FlagNotRequired == 0
                  && PasswordFlags(conn, settingName) & FlagAgentOwned != 0)
    ensures a.Secrets? ==> a.secrets == map[settingName := map[]]
  {
    if settingName == VpnSetting then DBusError(NoSecretsError)
    else
      var flags := PasswordFlags(conn, settingName);
      if flags == UnknownFlags then DBusError(NoSecretsError)
      else if flags & FlagNotRequired != 0 then Secrets(map[settingName := map[]])
      else if flags & FlagAgentOwned != 0 then DBusError(NoSecretsError)
      else Secrets(map[settingName := map[]])
  }

  /** The first step of `GetSecrets`: answer at once, or prompt the user. */
  datatype Step = Answer(answer: Answer) | Prompt(req: PromptRequest)

  /** `GetSecrets` up to the prompt. `backend` is the backend's state when
    * the agent has one; `recentlyFailed` is the manager's verdict on the
    * SSID, false when there is no manager. While the backend connects to a
    * network or VPN, requests for others are refused. */
  function GetSecretsStep(conn: SettingMap, path: string, settingName: string, hints: seq<string>,
                          flags: bv32, backend: Option<BackendState>, recentlyFailed: bool): (step: Step)
    ensures FieldsNeeded(settingName, hints) == [] ==> step.Answer?
    ensures step.Prompt? ==>
              step.req.Fields == FieldsNeeded(settingName, hints) != []
              && step.req.SettingName == settingName && step.req.ConnectionPath == path
              && step.req.Hints == hints && step.req.SSID == ReadSSID(conn)
    ensures step.Prompt? && step.req.Reason != ReasonFromFlags(flags) ==>
              step.req.Reason == "wrong-password" && recentlyFailed
    ensures backend.Some? && backend.value.IsConnecting
            && ReadConnTypeAndName(conn).0 == WirelessType
            && backend.value.ConnectingSSID != ReadSSID(conn)
            ==> step == Answer(DBusError(NoSecretsError))
  {
    var (connType, displayName, vpnSvc) := ReadConnTypeAndName(conn);
    var ssid := ReadSSID(conn);
    var fields := FieldsNeeded(settingName, hints);
    var connUuid := StringAt(conn, "connection", "uuid");
    if backend.Some? && connType == WirelessType
       && backend.value.IsConnecting && backend.value.ConnectingSSID != ssid then
      Answer(DBusError(NoSecretsError))
    else if backend.Some? && (connType == "vpn" || connType == "wireguard")
            && backend.value.IsConnectingVPN && connUuid != backend.value.ConnectingVPNUUID then
      Answer(DBusError(NoSecretsError))
    else if |fields| == 0 then
      Answer(EmptyFieldsAnswer(conn, settingName))
    else
      var reason := if recentlyFailed && connType == WirelessType then "wrong-password"
                    else ReasonFromFlags(flags);
      Prompt(PromptRequest(displayName, ssid, connType, vpnSvc, settingName, fields, hints, reason,
                           StringAt(conn, "connection", "id"), connUuid, path))
  }

  /** The end of `GetSecrets`: the outcome of the prompt becomes the answer.
    * A failure to ask is a failure; a cancelled prompt is the user's
    * cancellation; any other wait error is a failure; otherwise the
    * user's secrets are returned under the setting name. */
  function ReplyAnswer(settingName: string, asked: Result<string>, reply: PromptReply,
                       waitErr: Option<string>): (a: Answer)
    ensures asked.Err? ==> a == DBusError(FailedError)
    ensures asked.Ok? && waitErr.None? ==> a == Secrets(map[settingName := reply.Secrets])
    ensures a.DBusError? ==> a.name in {FailedError, UserCanceledError}
  {
    if asked.Err? then DBusError(FailedError)
    else if waitErr.Some? then
      (if reply.Cancel || waitErr.value == "secret prompt cancelled by user" then DBusError(UserCanceledError)
       else DBusError(FailedError))
    else Secrets(map[settingName := reply.Secrets])
  }

  /** A VPN request without hints is always deferred to other agents. */
  lemma VpnWithoutHintsDefers(conn: SettingMap, path: string, flags: bv32,
                              backend: Option<BackendState>, recentlyFailed: bool)
    ensures GetSecretsStep(conn, path, VpnSetting, [], flags, backend, recentlyFailed)
            == Answer(DBusError(NoSecretsError))
  {
  }

  /** A wireless connection with no id is shown under its SSID, whether the
    * SSID is stored as bytes or as text. */
  lemma WirelessNameFallsBack(id: Variant, ssid: string)
    requires !id.VString? || id.s == ""
    ensures var conn := map["connection" := map["type" := VString(WirelessType), "id" := id],
                            WirelessType := map["ssid" := VString(ssid)]];
            ReadConnTypeAndName(conn).1 == ssid
  {
  }
}
