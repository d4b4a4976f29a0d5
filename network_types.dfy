/** The records the network service passes around: scanned Wi-Fi networks,
  * wired and VPN connections, the published state, and credential prompts. */
module NetworkTypes {

  /** Go's `uint8`. */
  type Uint8 = x: int | 0 <= x < 256

  /** Go's `uint32`. */
  type Uint32 = x: int | 0 <= x < 0x1_0000_0000

  const StatusDisconnected: string := "disconnected"
  const StatusEthernet: string := "ethernet"
  const StatusWiFi: string := "wifi"
  const StatusVPN: string := "vpn"

  const PreferenceAuto: string := "auto"
  const PreferenceWiFi: string := "wifi"
  const PreferenceEthernet: string := "ethernet"

  datatype WiFiNetwork = WiFiNetwork(
    SSID: string,
    BSSID: string,
    Signal: Uint8,
    Secured: bool,
    Enterprise: bool,
    Connected: bool,
    Saved: bool,
    Autoconnect: bool,
    Frequency: Uint32,
    Mode: string,
    Rate: Uint32,
    Channel: Uint32)

  datatype VPNProfile = VPNProfile(Name: string, UUID: string, Type: string, ServiceType: string)

  datatype VPNActive = VPNActive(
    Name: string, UUID: string, Device: string, State: string, Type: string, Plugin: string)

  datatype WiredConnection = WiredConnection(
    Path: string, ID: string, UUID: string, Type: string, IsActive: bool)

  /** The state the manager publishes to its subscribers. */
  datatype NetworkState = NetworkState(
    Backend: string,
    NetworkStatus: string,
    Preference: string,
    EthernetIP: string,
    EthernetDevice: string,
    EthernetConnected: bool,
    EthernetConnectionUuid: string,
    WiFiIP: string,
    WiFiDevice: string,
    WiFiConnected: bool,
    WiFiEnabled: bool,
    WiFiSSID: string,
    WiFiBSSID: string,
    WiFiSignal: Uint8,
    WiFiNetworks: seq<WiFiNetwork>,
    WiredConnections: seq<WiredConnection>,
    VPNProfiles: seq<VPNProfile>,
    VPNActive: seq<VPNActive>,
    IsConnecting: bool,
    ConnectingSSID: string,
    LastError: string)

  /** The state a backend keeps. */
  datatype BackendState = BackendState(
    Backend: string,
    NetworkStatus: string,
    EthernetIP: string,
    EthernetDevice: string,
    EthernetConnected: bool,
    EthernetConnectionUuid: string,
    WiFiIP: string,
    WiFiDevice: string,
    WiFiConnected: bool,
    WiFiEnabled: bool,
    WiFiSSID: string,
    WiFiBSSID: string,
    WiFiSignal: Uint8,
    WiFiNetworks: seq<WiFiNetwork>,
    WiredConnections: seq<WiredConnection>,
    VPNProfiles: seq<VPNProfile>,
    VPNActive: seq<VPNActive>,
    IsConnecting: bool,
    ConnectingSSID: string,
    IsConnectingVPN: bool,
    ConnectingVPNUUID: string,
    LastError: string)

  /** A backend state with every field at Go's zero value. */
  function EmptyBackendState(): BackendState
  {
    BackendState("", "", "", "", false, "", "", "", false, false, "", "", 0,
                 [], [], [], [], false, "", false, "", "")
  }

  /** What the secret agent asks the user for. */
  datatype PromptRequest = PromptRequest(
    Name: string,
    SSID: string,
    ConnType: string,
    VpnService: string,
    SettingName: string,
    Fields: seq<string>,
    Hints: seq<string>,
    Reason: string,
    ConnectionId: string,
    ConnectionUuid: string,
    ConnectionPath: string)

  /** The user's answer to a prompt. */
  datatype PromptReply = PromptReply(Secrets: map<string, string>, Save: bool, Cancel: bool)
}
