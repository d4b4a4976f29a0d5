/** The NetworkManager backend's reading of the Wi-Fi device: how a device
  * state reason becomes an error code, and how a connection attempt in
  * progress ends when the device reports success or failure. */
module NMState {
  import opened Common
  import opened NetworkTypes
  import opened Errdefs

  // NetworkManager's device state reasons that the backend tells apart.
  const ReasonSecretsRequired: int := 7
  const ReasonNoSecrets: int := 6
  const ReasonWrongPassword: int := 8
  const ReasonNoSsid: int := 10
  const ReasonDhcpClientFailed: int := 14
  const ReasonIpConfigUnavailable: int := 18
  const ReasonSupplicantDisconnect: int := 23
  const ReasonSupplicantTimeout: int := 24
  const ReasonSupplicantFailed: int := 25
  const ReasonCarrier: int := 40
  const ReasonNewActivation: int := 60

  // NetworkManager's device states (`NMDeviceState`) that the backend reads.
  const DeviceStateDisconnected: int := 30
  const DeviceStateActivated: int := 100
  const DeviceStateFailed: int := 120

  /** `classifyNMStateReason`: the error code for a device state reason;
    * reasons it does not list are a generic connection failure. */
  function ClassifyNMStateReason(reason: int): (code: string)
    ensures code == ErrBadCredentials <==>
              reason in {ReasonWrongPassword, ReasonSupplicantTimeout, ReasonSupplicantFailed,
                         ReasonSecretsRequired}
    ensures code == ErrUserCanceled <==> reason == ReasonNoSecrets
    ensures code == ErrNoSuchSSID <==> reason == ReasonNoSsid
    ensures code == ErrDhcpTimeout <==> reason in {ReasonDhcpClientFailed, ReasonIpConfigUnavailable}
    ensures code == ErrAssocTimeout <==> reason in {ReasonSupplicantDisconnect, ReasonCarrier}
    ensures code in {ErrBadCredentials, ErrUserCanceled, ErrNoSuchSSID, ErrDhcpTimeout,
                     ErrAssocTimeout, ErrConnectionFailed}
  {
    if reason in {ReasonWrongPassword, ReasonSupplicantTimeout, ReasonSupplicantFailed,
                  ReasonSecretsRequired} then ErrBadCredentials
    else if reason == ReasonNoSecrets then ErrUserCanceled
    else if reason == ReasonNoSsid then ErrNoSuchSSID
    else if reason == ReasonDhcpClientFailed || reason == ReasonIpConfigUnavailable then ErrDhcpTimeout
    else if reason == ReasonSupplicantDisconnect || reason == ReasonCarrier then ErrAssocTimeout
    else ErrConnectionFailed
  }

  /** The code recorded for a failed attempt: a generic failure for the
    * same SSID as a failure less than 5 s earlier counts as bad
    * credentials. Times are Unix seconds. */
  function FailureCode(reason: int, ssid: string, lastFailedSSID: string, lastFailedTime: int, now: int)
    : (code: string)
    ensures code == ErrBadCredentials <==>
              ClassifyNMStateReason(reason) == ErrBadCredentials
              || (ClassifyNMStateReason(reason) == ErrConnectionFailed
                  && ssid == lastFailedSSID && now - lastFailedTime < 5)
    ensures code != ErrBadCredentials ==> code == ClassifyNMStateReason(reason)
  {
    var c := ClassifyNMStateReason(reason);
    if c == ErrConnectionFailed && lastFailedSSID == ssid && now - lastFailedTime < 5 then
      ErrBadCredentials
    else c
  }

  /** What the D-Bus reads return for one update: the interface name and
    * the device state (each possibly an error), the active access point's
    * SSID, BSSID and strength ("" and 0 when there is none), the device's
    * IPv4 address, and the state reason. */
  datatype WiFiReading = WiFiReading(
    iface: Result<string>, devState: Result<int>, apSSID: string, apBSSID: string,
    apSignal: Uint8, ip: string, reason: int)

  /** The device has failed, or is disconnected. */
  predicate EndsAttempt(devState: int)
  {
    devState == DeviceStateFailed || devState == DeviceStateDisconnected
  }

  /** The Wi-Fi fields after an update: the access point's details only
    * while the device is activated. */
  function WithWiFiFields(s: BackendState, iface: string, devState: int, r: WiFiReading)
    : (t: BackendState)
    ensures t.WiFiConnected == (devState == DeviceStateActivated)
    ensures t.WiFiDevice == iface
    ensures devState != DeviceStateActivated ==>
              t.WiFiSSID == "" && t.WiFiBSSID == "" && t.WiFiIP == "" && t.WiFiSignal == 0
    ensures t.IsConnecting == s.IsConnecting && t.LastError == s.LastError
  {
    var connected := devState == DeviceStateActivated;
    s.(WiFiDevice := iface, WiFiConnected := connected,
       WiFiIP := if connected then r.ip else "",
       WiFiSSID := if connected then r.apSSID else "",
       WiFiBSSID := if connected then r.apBSSID else "",
       WiFiSignal := if connected then r.apSignal else 0)
  }

  class NetworkManagerBackend {
    var state: BackendState
    var hasWiFiDevice: bool
    var lastFailedSSID: string
    var lastFailedTime: int

    constructor (s: BackendState, withWiFi: bool)
      ensures state == s && hasWiFiDevice == withWiFi
      ensures lastFailedSSID == "" && lastFailedTime == 0
    {
      state, hasWiFiDevice := s, withWiFi;
      lastFailedSSID, lastFailedTime := "", 0;
    }

    /** `updateWiFiState` at Unix time `now`. While an attempt is in
      * progress, the target SSID becoming active ends it successfully, and
      * a failed or disconnected device ends it with the failure code and
      * records the failure; a state reason of 0 or "new activation" leaves
      * everything as it was. */
    method UpdateWiFiState(r: WiFiReading, now: int) returns (err: Option<string>)
      modifies this
      ensures hasWiFiDevice == old(hasWiFiDevice)
      ensures !hasWiFiDevice ==> err == None && unchanged(this)
      ensures hasWiFiDevice && r.iface.Err? ==> err == Some(r.iface.msg) && unchanged(this)
      ensures hasWiFiDevice && r.iface.Ok? && r.devState.Err? ==>
                err == Some(r.devState.msg) && unchanged(this)
      ensures hasWiFiDevice && r.iface.Ok? && r.devState.Ok? ==>
                var st, s0 := r.devState.value, old(state);
                var attempt := s0.IsConnecting && s0.ConnectingSSID != "";
                err == None
                && (if attempt && EndsAttempt(st)
                       && (r.reason == ReasonNewActivation || r.reason == 0) then
                      unchanged(this)
                    else if attempt && st == DeviceStateActivated && r.apSSID == s0.ConnectingSSID then
                      state == WithWiFiFields(s0.(IsConnecting := false, ConnectingSSID := "",
                                                  LastError := ""), r.iface.value, st, r)
                      && lastFailedSSID == old(lastFailedSSID) && lastFailedTime == old(lastFailedTime)
                    else if attempt && EndsAttempt(st) then
                      state == WithWiFiFields(
                                 s0.(IsConnecting := false, ConnectingSSID := "",
                                     LastError := FailureCode(r.reason, s0.ConnectingSSID,
                                                              old(lastFailedSSID), old(lastFailedTime), now)),
                                 r.iface.value, st, r)
                      && lastFailedSSID == s0.ConnectingSSID && lastFailedTime == now
                    else
                      state == WithWiFiFields(s0, r.iface.value, st, r)
                      && lastFailedSSID == old(lastFailedSSID) && lastFailedTime == old(lastFailedTime))
    {
      if !hasWiFiDevice {
        return None;
      }
      if r.iface.Err? {
        return Some(r.iface.msg);
      }
      if r.devState.Err? {
        return Some(r.devState.msg);
      }
      var iface, st := r.iface.value, r.devState.value;
      var connected := st == DeviceStateActivated;
      var failed := st == DeviceStateFailed;
      var disconnected := st == DeviceStateDisconnected;
      var ssid := if connected then r.apSSID else "";

      var wasConnecting, connectingSSID := state.IsConnecting, state.ConnectingSSID;
      var reasonCode := "";
      if wasConnecting && connectingSSID != "" && (failed || (disconnected && !connected)) {
        if r.reason == ReasonNewActivation || r.reason == 0 {
          return None;
        }
        reasonCode := ClassifyNMStateReason(r.reason);
        if reasonCode == ErrConnectionFailed && lastFailedSSID == connectingSSID
           && now - lastFailedTime < 5 {
          reasonCode := ErrBadCredentials;
        }
      }

      if wasConnecting && connectingSSID != "" {
        if connected && ssid == connectingSSID {
          state := state.(IsConnecting := false, ConnectingSSID := "", LastError := "");
        } else if failed || (disconnected && !connected) {
          state := state.(IsConnecting := false, ConnectingSSID := "", LastError := reasonCode);
          lastFailedSSID, lastFailedTime := connectingSSID, now;
        }
      }
      state := WithWiFiFields(state, iface, st, r);
      return None;
    }
  }

  /** Two generic failures for the same network in quick succession: the
    * second is reported as bad credentials. */
  method RepeatedFailure(b: NetworkManagerBackend, ssid: string, r: WiFiReading, now: int)
    requires b.hasWiFiDevice && ssid != "" && b.lastFailedSSID != ssid
    requires r.iface.Ok? && r.devState == Ok(DeviceStateFailed) && r.reason == 999
    modifies b
    ensures b.state.LastError == ErrBadCredentials && !b.state.IsConnecting
  {
    b.state := b.state.(IsConnecting := true, ConnectingSSID := ssid);
    var e1 := b.UpdateWiFiState(r, now);
    assert b.state.LastError == ErrConnectionFailed;
    b.state := b.state.(IsConnecting := true, ConnectingSSID := ssid);
    var e2 := b.UpdateWiFiState(r, now + 4);
  }
}
