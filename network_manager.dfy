/** The network manager's change detection and its read accessors. */
module NetworkManager {
  import opened Common
  import opened NetworkTypes

  /** A signal change matters when either reading is 0 or they are at least
    * 5 apart. */
  predicate SignalChangeSignificant(old_: Uint8, new_: Uint8)
  {
    old_ == 0 || new_ == 0 || (if new_ >= old_ then new_ - old_ else old_ - new_) >= 5
  }

  // ---------------------------------------------------------------------
  // Reference view of what the change detector compares

  /** The fields compared before the signal. */
  datatype Head = Head(
    status: string, pref: string, ethConnected: bool, ethIP: string,
    wifiConnected: bool, wifiEnabled: bool, ssid: string, bssid: string, wifiIP: string)

  function HeadOf(s: NetworkState): Head
  {
    Head(s.NetworkStatus, s.Preference, s.EthernetConnected, s.EthernetIP,
         s.WiFiConnected, s.WiFiEnabled, s.WiFiSSID, s.WiFiBSSID, s.WiFiIP)
  }

  datatype NetKey = NetKey(ssid: string, connected: bool, saved: bool, autoconnect: bool)
  datatype WiredKey = WiredKey(id: string, active: bool)
  datatype VpnKey = VpnKey(uuid: string, state: string)

  /** The per-network fields the detector compares. */
  function KeyOfNetwork(n: WiFiNetwork): NetKey
  {
    NetKey(n.SSID, n.Connected, n.Saved, n.Autoconnect)
  }

  function NetKeys(ns: seq<WiFiNetwork>): seq<NetKey>
  {
    seq(|ns|, i requires 0 <= i < |ns| => KeyOfNetwork(ns[i]))
  }

  function WiredKeys(ws: seq<WiredConnection>): seq<WiredKey>
  {
    seq(|ws|, i requires 0 <= i < |ws| => WiredKey(ws[i].ID, ws[i].IsActive))
  }

  function VpnKeys(vs: seq<VPNActive>): seq<VpnKey>
  {
    seq(|vs|, i requires 0 <= i < |vs| => VpnKey(vs[i].UUID, vs[i].State))
  }

  /** The fields compared after the signal. */
  datatype Tail = Tail(
    connecting: bool, connectingSSID: string, lastError: string,
    nets: seq<NetKey>, wired: seq<WiredKey>, vpnProfiles: nat, vpnActive: seq<VpnKey>)

  function TailOf(s: NetworkState): Tail
  {
    Tail(s.IsConnecting, s.ConnectingSSID, s.LastError, NetKeys(s.WiFiNetworks),
         WiredKeys(s.WiredConnections), |s.VPNProfiles|, VpnKeys(s.VPNActive))
  }

  /** The change rule as written: a head difference is a change; then a
    * signal difference too small to matter ends the comparison with "no
    * change"; otherwise a signal or tail difference is a change. */
  predicate ChangedAsWritten(a: NetworkState, b: NetworkState)
  {
    HeadOf(a) != HeadOf(b)
    || (!(a.WiFiSignal != b.WiFiSignal && !SignalChangeSignificant(a.WiFiSignal, b.WiFiSignal))
        && (a.WiFiSignal != b.WiFiSignal || TailOf(a) != TailOf(b)))
  }

  /** The evidently intended rule: a small signal change is ignored, and the
    * other fields are still compared. */
  predicate ChangedIntended(a: NetworkState, b: NetworkState)
  {
    HeadOf(a) != HeadOf(b)
    || (a.WiFiSignal != b.WiFiSignal && SignalChangeSignificant(a.WiFiSignal, b.WiFiSignal))
    || TailOf(a) != TailOf(b)
  }

  // ---------------------------------------------------------------------
  // The detector as written

  /** `stateChangedMeaningfully`: the comparison chain with its early
    * returns. */
  method StateChangedMeaningfully(a: NetworkState, b: NetworkState) returns (changed: bool)
    ensures changed == ChangedAsWritten(a, b)
  {
    if a.NetworkStatus != b.NetworkStatus || a.Preference != b.Preference
       || a.EthernetConnected != b.EthernetConnected || a.EthernetIP != b.EthernetIP
       || a.WiFiConnected != b.WiFiConnected || a.WiFiEnabled != b.WiFiEnabled
       || a.WiFiSSID != b.WiFiSSID || a.WiFiBSSID != b.WiFiBSSID || a.WiFiIP != b.WiFiIP {
      return true;
    }
    if !SignalChangeSignificant(a.WiFiSignal, b.WiFiSignal) {
      if a.WiFiSignal != b.WiFiSignal {
        return false;
      }
    } else if a.WiFiSignal != b.WiFiSignal {
      return true;
    }
    changed := TailChanged(a, b);
  }

  /** The comparisons after the signal, loops included. */
  method TailChanged(a: NetworkState, b: NetworkState) returns (changed: bool)
    ensures changed == (TailOf(a) != TailOf(b))
  {
    if a.IsConnecting != b.IsConnecting || a.ConnectingSSID != b.ConnectingSSID
       || a.LastError != b.LastError {
      return true;
    }
    if |a.WiFiNetworks| != |b.WiFiNetworks| || |a.WiredConnections| != |b.WiredConnections| {
      assert |NetKeys(a.WiFiNetworks)| != |NetKeys(b.WiFiNetworks)|
             || |WiredKeys(a.WiredConnections)| != |WiredKeys(b.WiredConnections)|;
      return true;
    }
    var same := SameNetKeys(a.WiFiNetworks, b.WiFiNetworks);
    if !same {
      return true;
    }
    same := SameWiredKeys(a.WiredConnections, b.WiredConnections);
    if !same {
      return true;
    }
    if |a.VPNProfiles| != |b.VPNProfiles| || |a.VPNActive| != |b.VPNActive| {
      assert |VpnKeys(a.VPNActive)| != |VpnKeys(b.VPNActive)| || |a.VPNProfiles| != |b.VPNProfiles|;
      return true;
    }
    same := SameVpnKeys(a.VPNActive, b.VPNActive);
    return !same;
  }

  /** The per-network loop: SSID, connected, saved and autoconnect. */
  method SameNetKeys(xs: seq<WiFiNetwork>, ys: seq<WiFiNetwork>) returns (same: bool)
    requires |xs| == |ys|
    ensures same == (NetKeys(xs) == NetKeys(ys))
  {
    var i := 0;
    while i < |xs|
      invariant 0 <= i <= |xs|
      invariant forall j :: 0 <= j < i ==> NetKeys(xs)[j] == NetKeys(ys)[j]
    {
      var x, y := xs[i], ys[i];
      if x.SSID != y.SSID || x.Connected != y.Connected || x.Saved != y.Saved
         || x.Autoconnect != y.Autoconnect {
        assert NetKeys(xs)[i] != NetKeys(ys)[i];
        return false;
      }
      i := i + 1;
    }
    return true;
  }

  /** The per-connection loop over wired connections: ID and active. */
  method SameWiredKeys(xs: seq<WiredConnection>, ys: seq<WiredConnection>) returns (same: bool)
    requires |xs| == |ys|
    ensures same == (WiredKeys(xs) == WiredKeys(ys))
  {
    var i := 0;
    while i < |xs|
      invariant 0 <= i <= |xs|
      invariant forall j :: 0 <= j < i ==> WiredKeys(xs)[j] == WiredKeys(ys)[j]
    {
      if xs[i].ID != ys[i].ID || xs[i].IsActive != ys[i].IsActive {
        assert WiredKeys(xs)[i] != WiredKeys(ys)[i];
        return false;
      }
      i := i + 1;
    }
    return true;
  }

  /** The loop over active VPN connections: UUID and state. */
  method SameVpnKeys(xs: seq<VPNActive>, ys: seq<VPNActive>) returns (same: bool)
    requires |xs| == |ys|
    ensures same == (VpnKeys(xs) == VpnKeys(ys))
  {
    var i := 0;
    while i < |xs|
      invariant 0 <= i <= |xs|
      invariant forall j :: 0 <= j < i ==> VpnKeys(xs)[j] == VpnKeys(ys)[j]
    {
      if xs[i].UUID != ys[i].UUID || xs[i].State != ys[i].State {
        assert VpnKeys(xs)[i] != VpnKeys(ys)[i];
        return false;
      }
      i := i + 1;
    }
    return true;
  }

  // ---------------------------------------------------------------------
  // Properties of the rule

  /** A state compared with itself is unchanged. */
  lemma SameStateUnchanged(s: NetworkState)
    ensures !ChangedAsWritten(s, s) && !ChangedIntended(s, s)
  {
  }

  /** Any difference in status, preference, ethernet or Wi-Fi scalar fields
    * is a change. */
  lemma HeadDifferenceIsChange(a: NetworkState, b: NetworkState)
    requires a.NetworkStatus != b.NetworkStatus || a.Preference != b.Preference
             || a.EthernetConnected != b.EthernetConnected || a.EthernetIP != b.EthernetIP
             || a.WiFiConnected != b.WiFiConnected || a.WiFiEnabled != b.WiFiEnabled
             || a.WiFiSSID != b.WiFiSSID || a.WiFiBSSID != b.WiFiBSSID || a.WiFiIP != b.WiFiIP
    ensures ChangedAsWritten(a, b)
  {
  }

  /** When the signal is unchanged, a difference in a list length or in a
    * compared per-item field is a change. */
  lemma ListDifferenceIsChange(a: NetworkState, b: NetworkState, i: int)
    requires a.WiFiSignal == b.WiFiSignal
    requires |a.WiFiNetworks| != |b.WiFiNetworks|
             || (0 <= i < |a.WiFiNetworks| == |b.WiFiNetworks|
                 && (a.WiFiNetworks[i].SSID != b.WiFiNetworks[i].SSID
                     || a.WiFiNetworks[i].Connected != b.WiFiNetworks[i].Connected))
             || |a.VPNProfiles| != |b.VPNProfiles|
    ensures ChangedAsWritten(a, b)
  {
    if |a.WiFiNetworks| == |b.WiFiNetworks| && |a.VPNProfiles| == |b.VPNProfiles| {
      assert NetKeys(a.WiFiNetworks)[i] != NetKeys(b.WiFiNetworks)[i];
    }
    assert TailOf(a) != TailOf(b);
  }

  /** As written, a small nonzero signal change hides every later
    * difference: here the connection attempt ended with an error and the
    * detector still reports no change. */
  lemma SmallSignalChangeHidesError(a: NetworkState)
    requires a.WiFiSignal == 60 && a.IsConnecting && a.LastError == ""
    ensures !ChangedAsWritten(a, a.(WiFiSignal := 62, IsConnecting := false, LastError := "bad-credentials"))
    ensures ChangedIntended(a, a.(WiFiSignal := 62, IsConnecting := false, LastError := "bad-credentials"))
  {
    var b := a.(WiFiSignal := 62, IsConnecting := false, LastError := "bad-credentials");
    assert HeadOf(a) == HeadOf(b);
    assert TailOf(a).connecting != TailOf(b).connecting;
  }

  /** The intended rule keeps every other difference visible, and agrees with
    * the rule as written whenever the signal did not move slightly. */
  lemma IntendedRule(a: NetworkState, b: NetworkState)
    ensures TailOf(a) != TailOf(b) ==> ChangedIntended(a, b)
    ensures !(a.WiFiSignal != b.WiFiSignal && !SignalChangeSignificant(a.WiFiSignal, b.WiFiSignal))
            ==> (ChangedAsWritten(a, b) <==> ChangedIntended(a, b))
    ensures ChangedAsWritten(a, b) ==> ChangedIntended(a, b)
  {
  }

  // ---------------------------------------------------------------------
  // The manager's state accessors

  class Manager {
    var state: NetworkState
    /** Whether the backend is the NetworkManager one, and how many times
      * subscribers were notified. */
    var backendIsNM: bool
    var notifications: nat

    constructor (s: NetworkState, nm: bool)
      ensures state == s && backendIsNM == nm && notifications == 0
    {
      state, backendIsNM, notifications := s, nm, 0;
    }

    /** `GetWiFiNetworks`: a fresh copy of the scan list, so that writing
      * to it cannot reach the manager's state. */
    method GetWiFiNetworks() returns (networks: array<WiFiNetwork>)
      ensures fresh(networks)
      ensures networks[..] == state.WiFiNetworks
    {
      networks := new WiFiNetwork[|state.WiFiNetworks|](i requires 0 <= i < |state.WiFiNetworks| reads this => state.WiFiNetworks[i]);
    }

    /** `GetNetworkInfo`: the first scanned network with the given SSID. */
    method GetNetworkInfo(ssid: string) returns (r: Result<WiFiNetwork>)
      ensures r.Ok? <==> exists i :: 0 <= i < |state.WiFiNetworks| && state.WiFiNetworks[i].SSID == ssid
      ensures r.Ok? ==> exists i :: 0 <= i < |state.WiFiNetworks| && state.WiFiNetworks[i] == r.value
                          && r.value.SSID == ssid
                          && forall j :: 0 <= j < i ==> state.WiFiNetworks[j].SSID != ssid
      ensures r.Err? ==> r.msg == "network not found: " + ssid
    {
      var i := 0;
      while i < |state.WiFiNetworks|
        invariant 0 <= i <= |state.WiFiNetworks|
        invariant forall j :: 0 <= j < i ==> state.WiFiNetworks[j].SSID != ssid
      {
        if state.WiFiNetworks[i].SSID == ssid {
          return Ok(state.WiFiNetworks[i]);
        }
        i := i + 1;
      }
      return Err("network not found: " + ssid);
    }
  }

  /** Writing into the copy returned by `GetWiFiNetworks` leaves the manager's
    * list as it was. */
  method CopyIsIndependent(m: Manager, n: WiFiNetwork)
    requires |m.state.WiFiNetworks| > 0
    ensures m.state == old(m.state)
  {
    var copy := m.GetWiFiNetworks();
    copy[0] := n;
  }
}
