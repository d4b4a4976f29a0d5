/** The iwd Wi-Fi backend's error handling: mapping iwd's D-Bus error names
  * to error codes, classifying a connection attempt that ran out of time,
  * finalizing an attempt once, and turning a signal level into a
  * percentage. */
module IwdWifi {
  import opened Common
  import opened NetworkTypes
  import opened Errdefs
  import UtilsMath

  // ---------------------------------------------------------------------
  // Signal strength

  /** iwd reports signal strength as an `int16` in hundredths of a dBm; the
    * dBm value (truncated) plus 100 is the percentage, held to 0..100. */
  function SignalPercent(strength: int): (signal: Uint8)
    requires -32768 <= strength < 32768
    ensures 0 <= signal <= 100
    ensures signal == UtilsMath.Clamp(GoDiv(strength, 100) + 100, 0, 100)
  {
    var dbm := GoDiv(strength, 100);
    if dbm > 0 then 100
    else if dbm < -100 then 0
    else ToUint8(ToInt16(dbm + 100))
  }

  /** A stronger signal never shows a lower percentage. */
  lemma SignalPercentMonotone(s1: int, s2: int)
    requires -32768 <= s1 <= s2 < 32768
    ensures SignalPercent(s1) <= SignalPercent(s2)
  {
    GoDivMonotone(s1, s2, 100);
    UtilsMath.ClampMonotone(GoDiv(s1, 100) + 100, GoDiv(s2, 100) + 100, 0, 100);
  }

  /** -50 dBm and above is full strength, -100 dBm and below is none. */
  lemma SignalPercentExamples()
    ensures SignalPercent(-5000) == 50 && SignalPercent(0) == 100
    ensures SignalPercent(-10000) == 0 && SignalPercent(-12000) == 0
    ensures SignalPercent(500) == 100 && SignalPercent(-4999) == 51
  {
  }

  // ---------------------------------------------------------------------
  // D-Bus error names

  const IwdAlreadyConnected: string := "net.connman.iwd.Error.AlreadyConnected"
  const IwdAuthenticationFailed: string := "net.connman.iwd.Error.AuthenticationFailed"
  const IwdInvalidKey: string := "net.connman.iwd.Error.InvalidKey"
  const IwdIncorrectPassphrase: string := "net.connman.iwd.Error.IncorrectPassphrase"
  const IwdNotFound: string := "net.connman.iwd.Error.NotFound"
  const IwdNotSupported: string := "net.connman.iwd.Error.NotSupported"
  const IwdAgentCanceled: string := "net.connman.iwd.Agent.Error.Canceled"

  /** `mapIwdDBusError`: the error code for an iwd error name; names it does
    * not list are a generic connection failure. */
  function MapIwdDBusError(name: string): (code: string)
    ensures code == ErrBadCredentials <==>
              name in {IwdAuthenticationFailed, IwdInvalidKey, IwdIncorrectPassphrase}
    ensures name !in {IwdAlreadyConnected, IwdAuthenticationFailed, IwdInvalidKey,
                      IwdIncorrectPassphrase, IwdNotFound, IwdAgentCanceled}
            ==> code == ErrConnectionFailed
    ensures code in {ErrAlreadyConnected, ErrBadCredentials, ErrNoSuchSSID,
                     ErrConnectionFailed, ErrUserCanceled}
  {
    if name == IwdAlreadyConnected then ErrAlreadyConnected
    else if name == IwdAuthenticationFailed || name == IwdInvalidKey
            || name == IwdIncorrectPassphrase then ErrBadCredentials
    else if name == IwdNotFound then ErrNoSuchSSID
    else if name == IwdNotSupported then ErrConnectionFailed
    else if name == IwdAgentCanceled then ErrUserCanceled
    else ErrConnectionFailed
  }

  // ---------------------------------------------------------------------
  // Classifying an attempt

  /** Durations and instants are in nanoseconds. */
  const Millisecond: int := 1_000_000
  const Second: int := 1_000_000_000

  /** What the watchdog has seen of a connection attempt; `connectedAt` is
    * `None` while the station has not reported the network connected. */
  datatype Attempt = Attempt(
    ssid: string, start: int, sawAuthish: bool, connectedAt: Option<int>,
    sawIPConfig: bool, sawPromptRetry: bool)

  /** `seenInRecentScan`: the SSID was seen less than 30 s ago. */
  predicate SeenInRecentScan(recentScans: map<string, int>, ssid: string, now: int)
  {
    ssid in recentScans && now - recentScans[ssid] < 30 * Second
  }

  /** Connected but never configured an address, after half a second and
    * before three. */
  predicate DroppedSoonAfterConnect(att: Attempt, now: int)
  {
    att.connectedAt.Some? && !att.sawIPConfig
    && 500 * Millisecond < now - att.connectedAt.value < 3 * Second
  }

  /** `classifyAttempt`: the error code for an attempt that ended without a
    * connection, checked in order: a repeated password prompt, a drop
    * soon after connecting, no address after 12 s of activity, and then no
    * activity at all. */
  function ClassifyAttempt(att: Attempt, recentScans: map<string, int>, now: int): (code: string)
    ensures code == ErrBadCredentials <==> att.sawPromptRetry || DroppedSoonAfterConnect(att, now)
    ensures code == ErrDhcpTimeout <==>
              !att.sawPromptRetry && !DroppedSoonAfterConnect(att, now)
              && (att.sawAuthish || att.connectedAt.Some?) && !att.sawIPConfig
              && now - att.start > 12 * Second
    ensures code == ErrNoSuchSSID <==>
              !att.sawPromptRetry && !att.sawAuthish && att.connectedAt.None?
              && !SeenInRecentScan(recentScans, att.ssid, now)
    ensures code in {ErrBadCredentials, ErrDhcpTimeout, ErrNoSuchSSID, ErrAssocTimeout}
  {
    if att.sawPromptRetry then ErrBadCredentials
    else if att.connectedAt.Some? && !att.sawIPConfig
            && now - att.connectedAt.value > 500 * Millisecond
            && now - att.connectedAt.value < 3 * Second then ErrBadCredentials
    else if (att.sawAuthish || att.connectedAt.Some?) && !att.sawIPConfig
            && now - att.start > 12 * Second then ErrDhcpTimeout
    else if !att.sawAuthish && att.connectedAt.None? then
      (if !SeenInRecentScan(recentScans, att.ssid, now) then ErrNoSuchSSID else ErrAssocTimeout)
    else ErrAssocTimeout
  }

  /** An attempt that reached address configuration is never blamed on DHCP
    * or on the credentials unless a prompt was repeated. */
  lemma ConfiguredAttempt(att: Attempt, recentScans: map<string, int>, now: int)
    requires att.sawIPConfig && !att.sawPromptRetry
    ensures ClassifyAttempt(att, recentScans, now) !in {ErrBadCredentials, ErrDhcpTimeout}
  {
  }

  // ---------------------------------------------------------------------
  // Reading the state back from iwd

  /** The network iwd reports as connected: its name and its signal in
    * the ordered-network list, when each could be read. */
  datatype ConnectedNetwork = ConnectedNetwork(name: Option<string>, strength: Option<int>)

  /** What `updateState` reads over D-Bus: whether a device and a station
    * are known, the device's `Powered` and the station's `State` when
    * they read with the right type, the connected network when there is
    * one (its path is neither missing nor "/"), and the scan list when
    * `updateWiFiNetworks` succeeds. */
  datatype IwdReading = IwdReading(hasDevice: bool, powered: Option<bool>, hasStation: bool,
                                   stationState: Option<string>, connected: Option<ConnectedNetwork>,
                                   networks: Option<seq<WiFiNetwork>>)

  /** The reading's signal strengths fit iwd's `int16`. */
  predicate ValidReading(r: IwdReading)
  {
    r.connected.Some? && r.connected.value.strength.Some? ==> -32768 <= r.connected.value.strength.value < 32768
  }

  /** The fields of the backend state that `updateState` reads back. */
  datatype WiFiView = WiFiView(enabled: bool, connected: bool, status: string, ssid: string,
                               signal: Uint8, networks: seq<WiFiNetwork>)

  function View(s: BackendState): WiFiView
  {
    WiFiView(s.WiFiEnabled, s.WiFiConnected, s.NetworkStatus, s.WiFiSSID, s.WiFiSignal, s.WiFiNetworks)
  }

  /** The state with its read-back fields replaced by `v`. */
  function WithView(s: BackendState, v: WiFiView): (t: BackendState)
    ensures View(t) == v
  {
    s.(WiFiEnabled := v.enabled, WiFiConnected := v.connected, NetworkStatus := v.status,
       WiFiSSID := v.ssid, WiFiSignal := v.signal, WiFiNetworks := v.networks)
  }

  /** `updateState` on the read-back fields: without a device nothing
    * changes; the device's power sets whether Wi-Fi is enabled; without a
    * station it stops there. Otherwise the station's state sets whether
    * Wi-Fi is connected and the status, the connected network sets the
    * SSID and the signal, and a successful scan replaces the network
    * list. */
  function Refresh(v: WiFiView, r: IwdReading): (w: WiFiView)
    requires ValidReading(r)
    ensures !r.hasDevice ==> w == v
    ensures r.hasDevice && !r.hasStation ==> w == v.(enabled := w.enabled)
    ensures w.enabled == if r.hasDevice && r.powered.Some? then r.powered.value else v.enabled
    ensures r.hasDevice && r.hasStation && r.stationState.Some? ==>
              w.connected == (r.stationState.value == "connected")
              && w.status == (if r.stationState.value == "connected" then StatusWiFi else StatusDisconnected)
    ensures !(r.hasDevice && r.hasStation && r.stationState.Some?) ==> w.connected == v.connected && w.status == v.status
    ensures w.ssid == if r.hasDevice && r.hasStation && r.connected.Some? && r.connected.value.name.Some? then
                        r.connected.value.name.value else v.ssid
    ensures w.signal == if r.hasDevice && r.hasStation && r.connected.Some? && r.connected.value.strength.Some? then
                          SignalPercent(r.connected.value.strength.value) else v.signal
    ensures w.networks == if r.hasDevice && r.hasStation && r.networks.Some? then r.networks.value else v.networks
  {
    if !r.hasDevice then v
    else
      var enabled := if r.powered.Some? then r.powered.value else v.enabled;
      if !r.hasStation then v.(enabled := enabled)
      else
        var connected := if r.stationState.Some? then r.stationState.value == "connected" else v.connected;
        var status := if r.stationState.Some? then (if connected then StatusWiFi else StatusDisconnected) else v.status;
        var ssid := if r.connected.Some? && r.connected.value.name.Some? then r.connected.value.name.value else v.ssid;
        var signal := if r.connected.Some? && r.connected.value.strength.Some? then
                        SignalPercent(r.connected.value.strength.value) else v.signal;
        var networks := if r.networks.Some? then r.networks.value else v.networks;
        WiFiView(enabled, connected, status, ssid, signal, networks)
  }

  /** `updateState`: only the read-back fields change, and they become
    * what `Refresh` makes of them. */
  function UpdateState(s: BackendState, r: IwdReading): (t: BackendState)
    requires ValidReading(r)
    ensures t == WithView(s, View(t))
    ensures View(t) == Refresh(View(s), r)
  {
    WithView(s, Refresh(View(s), r))
  }

  /** Reading the state back never touches the connection attempt: the
    * connecting flag, its SSID and the last error survive it. */
  lemma UpdateKeepsAttempt(s: BackendState, r: IwdReading)
    requires ValidReading(r)
    ensures UpdateState(s, r).IsConnecting == s.IsConnecting
    ensures UpdateState(s, r).ConnectingSSID == s.ConnectingSSID
    ensures UpdateState(s, r).LastError == s.LastError
  {
  }

  // ---------------------------------------------------------------------
  // Finalizing an attempt

  /** The attempt's `finalized` flag, which the watchdog and the agent
    * share. */
  class ConnectAttempt {
    var finalized: bool

    constructor ()
      ensures !finalized
    {
      finalized := false;
    }
  }

  class IWDBackend {
    var state: BackendState
    /** Whether `onStateChange` is set, and how often it was called. */
    var hasOnStateChange: bool
    var stateChanges: nat

    constructor (s: BackendState, withCallback: bool)
      ensures state == s && hasOnStateChange == withCallback && stateChanges == 0
    {
      state, hasOnStateChange, stateChanges := s, withCallback, 0;
    }

    /** `setConnectError`: ends the connecting phase with an error code. */
    method SetConnectError(code: string)
      modifies this
      ensures state == old(state).(IsConnecting := false, ConnectingSSID := "", LastError := code)
      ensures hasOnStateChange == old(hasOnStateChange) && stateChanges == old(stateChanges)
    {
      state := state.(IsConnecting := false, ConnectingSSID := "", LastError := code);
    }

    /** `finalizeAttempt`: the first call ends the connecting phase with the
      * code, reads the state back from iwd (`reading`) and notifies; later
      * calls for the same attempt do nothing. */
    method FinalizeAttempt(att: ConnectAttempt, code: string, reading: IwdReading)
      requires ValidReading(reading)
      modifies this, att
      ensures att.finalized
      ensures old(att.finalized) ==> unchanged(this)
      ensures !old(att.finalized) ==>
                state == UpdateState(old(state).(IsConnecting := false, ConnectingSSID := "", LastError := code), reading)
                && stateChanges == old(stateChanges) + (if hasOnStateChange then 1 else 0)
      ensures !old(att.finalized) ==> !state.IsConnecting && state.ConnectingSSID == "" && state.LastError == code
      ensures hasOnStateChange == old(hasOnStateChange)
    {
      if att.finalized {
        return;
      }
      att.finalized := true;
      SetConnectError(code);
      state := UpdateState(state, reading);
      if hasOnStateChange {
        stateChanges := stateChanges + 1;
      }
    }
  }

  /** Finalizing twice keeps the first code. */
  method DoubleFinalization(b: IWDBackend, att: ConnectAttempt, first: string, second: string,
                            r1: IwdReading, r2: IwdReading)
    requires !att.finalized && b != att as object && ValidReading(r1) && ValidReading(r2)
    modifies b, att
    ensures b.state.LastError == first && !b.state.IsConnecting && b.state.ConnectingSSID == ""
  {
    b.FinalizeAttempt(att, first, r1);
    b.FinalizeAttempt(att, second, r2);
  }
}
