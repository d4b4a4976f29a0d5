/** The hybrid backend that pairs iwd (Wi-Fi) with systemd-networkd
  * (addresses and wired links): its published state is a merge of both,
  * and it has no VPN support. */
module NetworkHybrid {
  import opened Common
  import opened NetworkTypes

  /** `GetCurrentState`: the iwd state with the backend name, the Wi-Fi
    * address and the wired fields taken from networkd; the status prefers a
    * wired link with an address, then Wi-Fi with a networkd address. An
    * error from either side is passed on, iwd's first. */
  function MergeStates(ws: Result<BackendState>, ls: Result<BackendState>): (r: Result<BackendState>)
    ensures ws.Err? ==> r == Err(ws.msg)
    ensures ws.Ok? && ls.Err? ==> r == Err(ls.msg)
    ensures ws.Ok? && ls.Ok? ==> r.Ok?
    ensures ws.Ok? && ls.Ok? ==>
              var w, l, m := ws.value, ls.value, r.value;
              m.Backend == "iwd+networkd"
              && m.WiFiSSID == w.WiFiSSID && m.WiFiBSSID == w.WiFiBSSID && m.WiFiSignal == w.WiFiSignal
              && m.WiFiConnected == w.WiFiConnected && m.WiFiDevice == w.WiFiDevice
              && m.WiFiEnabled == w.WiFiEnabled && m.WiFiNetworks == w.WiFiNetworks
              && m.IsConnecting == w.IsConnecting && m.ConnectingSSID == w.ConnectingSSID
              && m.LastError == w.LastError
              && m.WiFiIP == l.WiFiIP && m.EthernetConnected == l.EthernetConnected
              && m.EthernetIP == l.EthernetIP && m.EthernetDevice == l.EthernetDevice
              && m.EthernetConnectionUuid == l.EthernetConnectionUuid
              && m.WiredConnections == l.WiredConnections
              && (m.NetworkStatus == StatusEthernet <==> l.EthernetConnected && l.EthernetIP != "")
              && (m.NetworkStatus == StatusWiFi <==>
                    !(l.EthernetConnected && l.EthernetIP != "") && w.WiFiConnected && l.WiFiIP != "")
              && m.NetworkStatus in {StatusEthernet, StatusWiFi, StatusDisconnected}
  {
    if ws.Err? then Err(ws.msg)
    else if ls.Err? then Err(ls.msg)
    else
      var w, l := ws.value, ls.value;
      var status := if l.EthernetConnected && l.EthernetIP != "" then StatusEthernet
                    else if w.WiFiConnected && l.WiFiIP != "" then StatusWiFi
                    else StatusDisconnected;
      Ok(w.(Backend := "iwd+networkd", WiFiIP := l.WiFiIP, EthernetConnected := l.EthernetConnected,
            EthernetIP := l.EthernetIP, EthernetDevice := l.EthernetDevice,
            EthernetConnectionUuid := l.EthernetConnectionUuid, WiredConnections := l.WiredConnections,
            NetworkStatus := status))
  }

  /** Wi-Fi connected on iwd but without an address from networkd is not
    * reported as connected, and a wired address wins over Wi-Fi. */
  lemma StatusNeedsAddress(w: BackendState, l: BackendState)
    ensures w.WiFiConnected && l.WiFiIP == "" && !l.EthernetConnected ==>
              MergeStates(Ok(w), Ok(l)).value.NetworkStatus == StatusDisconnected
    ensures l.EthernetConnected && l.EthernetIP != "" && w.WiFiConnected ==>
              MergeStates(Ok(w), Ok(l)).value.NetworkStatus == StatusEthernet
  {
  }

  /** The VPN operations of the backend. */
  datatype VpnOp =
    | ListProfiles | ListActive
    | Connect(uuidOrName: string, singleActive: bool) | Disconnect(uuidOrName: string)
    | DisconnectAll | ClearCredentials(uuidOrName: string)

  datatype VpnOutcome = Profiles(profiles: seq<VPNProfile>) | Active(active: seq<VPNActive>) | Failed(err: string)

  /** Every VPN operation of the hybrid backend: the listings are empty and
    * the actions fail with "VPN not supported in hybrid mode". */
  function HybridVpn(op: VpnOp): (r: VpnOutcome)
    ensures op == ListProfiles <==> r == Profiles([])
    ensures op == ListActive <==> r == Active([])
    ensures r.Failed? <==> !op.ListProfiles? && !op.ListActive?
    ensures r.Failed? ==> r.err == "VPN not supported in hybrid mode"
  {
    match op
    case ListProfiles => Profiles([])
    case ListActive => Active([])
    case _ => Failed("VPN not supported in hybrid mode")
  }
}
