/** The connection preference: which of Wi-Fi and ethernet NetworkManager
  * should route through first, expressed as route metrics on the stored
  * connection profiles; and the "recently failed" test on the last failed
  * network. */
module NetworkPriority {
  import opened Common
  import opened NetworkTypes
  import NetworkManager
  import NMState

  const WirelessType: string := "802-11-wireless"
  const EthernetType: string := "802-3-ethernet"

  /** A stored connection profile as far as the metric update sees it: whether
    * its settings can be read, its `connection.type` when that is a string,
    * its IPv4 and IPv6 route metrics, and whether writing it back succeeds. */
  datatype Profile = Profile(
    readable: bool, connType: Option<string>, ipv4Metric: Option<int>, ipv6Metric: Option<int>,
    updateSucceeds: bool)

  /** The profile after one metric update for `connType`. */
  function WithMetric(p: Profile, connType: string, metric: int): (q: Profile)
    ensures q.readable == p.readable && q.connType == p.connType && q.updateSucceeds == p.updateSucceeds
    ensures p.readable && p.connType == Some(connType) && p.updateSucceeds ==>
              q.ipv4Metric == Some(metric) && q.ipv6Metric == Some(metric)
    ensures !(p.readable && p.connType == Some(connType) && p.updateSucceeds) ==> q == p
  {
    if p.readable && p.connType == Some(connType) && p.updateSucceeds then
      p.(ipv4Metric := Some(metric), ipv6Metric := Some(metric))
    else p
  }

  /** The outcomes of opening the settings service and listing its
    * profiles. */
  datatype SettingsAccess = SettingsAccess(settingsErr: Option<string>, listErr: Option<string>)

  /** `setConnectionMetrics`: every readable profile of the given type gets
    * the metric for IPv4 and IPv6; a profile whose update fails keeps its
    * old metrics and the loop goes on. */
  method SetConnectionMetrics(profiles: array<Profile>, connType: string, metric: int, env: SettingsAccess)
    returns (err: Option<string>)
    modifies profiles
    ensures env.settingsErr.Some? ==>
              err == Some("failed to get settings: " + env.settingsErr.value)
              && profiles[..] == old(profiles[..])
    ensures env.settingsErr.None? && env.listErr.Some? ==>
              err == Some("failed to get connections: " + env.listErr.value)
              && profiles[..] == old(profiles[..])
    ensures env.settingsErr.None? && env.listErr.None? ==>
              err == None
              && forall i :: 0 <= i < profiles.Length ==>
                   profiles[i] == WithMetric(old(profiles[i]), connType, metric)
  {
    if env.settingsErr.Some? {
      return Some("failed to get settings: " + env.settingsErr.value);
    }
    if env.listErr.Some? {
      return Some("failed to get connections: " + env.listErr.value);
    }
    var i := 0;
    while i < profiles.Length
      invariant 0 <= i <= profiles.Length
      invariant forall j :: 0 <= j < i ==> profiles[j] == WithMetric(old(profiles[j]), connType, metric)
      invariant forall j :: i <= j < profiles.Length ==> profiles[j] == old(profiles[j])
    {
      profiles[i] := WithMetric(profiles[i], connType, metric);
      i := i + 1;
    }
    return None;
  }

  predicate ValidPreference(pref: string)
  {
    pref == PreferenceWiFi || pref == PreferenceEthernet || pref == PreferenceAuto
  }

  /** The Wi-Fi and ethernet route metrics a preference asks for: the
    * preferred kind gets 50 and the other 100; "auto" gives both 50. */
  function PreferenceMetrics(pref: string): (m: (int, int))
    requires ValidPreference(pref)
    ensures pref == PreferenceAuto <==> m.0 == m.1
    ensures pref == PreferenceWiFi <==> m.0 < m.1
    ensures m.0 == 50 || m.1 == 50
  {
    if pref == PreferenceWiFi then (50, 100)
    else if pref == PreferenceEthernet then (100, 50)
    else (50, 50)
  }

  /** A profile after both metric updates of a preference. */
  function WithPreference(p: Profile, pref: string): Profile
    requires ValidPreference(pref)
  {
    WithMetric(WithMetric(p, WirelessType, PreferenceMetrics(pref).0), EthernetType, PreferenceMetrics(pref).1)
  }

  /** Updating both kinds in either order gives each profile its kind's
    * metric and leaves profiles of other kinds alone. */
  lemma WithPreferenceMetrics(p: Profile, pref: string)
    requires ValidPreference(pref)
    ensures p.readable && p.updateSucceeds && p.connType == Some(WirelessType) ==>
              WithPreference(p, pref).ipv4Metric == WithPreference(p, pref).ipv6Metric
              == Some(PreferenceMetrics(pref).0)
    ensures p.readable && p.updateSucceeds && p.connType == Some(EthernetType) ==>
              WithPreference(p, pref).ipv4Metric == WithPreference(p, pref).ipv6Metric
              == Some(PreferenceMetrics(pref).1)
    ensures p.connType !in {Some(WirelessType), Some(EthernetType)} ==> WithPreference(p, pref) == p
    ensures WithMetric(WithMetric(p, EthernetType, PreferenceMetrics(pref).1), WirelessType, PreferenceMetrics(pref).0)
            == WithPreference(p, pref)
  {
  }

  /** The error a metric pass reports before it touches any profile. */
  function AccessError(env: SettingsAccess): (e: Option<string>)
    ensures e.None? <==> env.settingsErr.None? && env.listErr.None?
  {
    if env.settingsErr.Some? then Some("failed to get settings: " + env.settingsErr.value)
    else if env.listErr.Some? then Some("failed to get connections: " + env.listErr.value)
    else None
  }

  /** The kind of profile updated first, and its metric: ethernet for the
    * ethernet and auto preferences, Wi-Fi for the Wi-Fi preference. */
  function FirstPass(pref: string): (r: (string, int))
    requires ValidPreference(pref)
    ensures r.0 == WirelessType <==> pref == PreferenceWiFi
    ensures r.1 == 50
  {
    if pref == PreferenceWiFi then (WirelessType, PreferenceMetrics(pref).0)
    else (EthernetType, PreferenceMetrics(pref).1)
  }

  /** The kind of profile updated second, and its metric. */
  function SecondPass(pref: string): (r: (string, int))
    requires ValidPreference(pref)
    ensures r.0 != FirstPass(pref).0
    ensures r.1 == (if pref == PreferenceAuto then 50 else 100)
  {
    if pref == PreferenceWiFi then (EthernetType, PreferenceMetrics(pref).1)
    else (WirelessType, PreferenceMetrics(pref).0)
  }

  /** `SetConnectionPreference`: an invalid preference is an error and
    * changes nothing. A valid one is stored first; without NetworkManager
    * subscribers are notified and nothing else happens. With it the
    * preferred kind (ethernet for "auto") gets its metric first, then the
    * other kind; each pass opens the settings service anew (`env1`,
    * `env2`). A failing pass returns its error at once, without a
    * notification, leaving the first pass's updates in place when the
    * second fails; when both succeed subscribers are notified. */
  method SetConnectionPreference(m: NetworkManager.Manager, profiles: array<Profile>, pref: string,
                                 env1: SettingsAccess, env2: SettingsAccess)
    returns (err: Option<string>)
    modifies m, profiles
    ensures m.backendIsNM == old(m.backendIsNM)
    ensures !ValidPreference(pref) ==>
              err == Some("invalid preference: " + pref) && unchanged(m) && unchanged(profiles)
    ensures ValidPreference(pref) ==>
              m.state == old(m.state).(Preference := pref)
    ensures ValidPreference(pref) && !m.backendIsNM ==>
              err == None && m.notifications == old(m.notifications) + 1 && unchanged(profiles)
    ensures ValidPreference(pref) && m.backendIsNM && AccessError(env1).Some? ==>
              err == AccessError(env1) && profiles[..] == old(profiles[..]) && m.notifications == old(m.notifications)
    ensures ValidPreference(pref) && m.backendIsNM && AccessError(env1).None? && AccessError(env2).Some? ==>
              err == AccessError(env2) && m.notifications == old(m.notifications)
              && forall i :: 0 <= i < profiles.Length ==>
                   profiles[i] == WithMetric(old(profiles[i]), FirstPass(pref).0, FirstPass(pref).1)
    ensures ValidPreference(pref) && m.backendIsNM && AccessError(env1).None? && AccessError(env2).None? ==>
              err == None && m.notifications == old(m.notifications) + 1
              && forall i :: 0 <= i < profiles.Length ==> profiles[i] == WithPreference(old(profiles[i]), pref)
  {
    if !ValidPreference(pref) {
      return Some("invalid preference: " + pref);
    }
    m.state := m.state.(Preference := pref);
    if !m.backendIsNM {
      m.notifications := m.notifications + 1;
      return None;
    }
    var (firstType, firstMetric) := FirstPass(pref);
    var (secondType, secondMetric) := SecondPass(pref);
    err := SetConnectionMetrics(profiles, firstType, firstMetric, env1);
    if err.Some? {
      return;
    }
    err := SetConnectionMetrics(profiles, secondType, secondMetric, env2);
    if err.Some? {
      return;
    }
    forall i | 0 <= i < profiles.Length
      ensures profiles[i] == WithPreference(old(profiles[i]), pref)
    {
      WithPreferenceMetrics(old(profiles[i]), pref);
    }
    m.notifications := m.notifications + 1;
  }

  /** `WasRecentlyFailed`: only the NetworkManager backend (`nm` not null)
    * keeps a last failure; it counts for the same SSID during 10 s. */
  function WasRecentlyFailed(nm: NMState.NetworkManagerBackend?, ssid: string, now: int): (r: bool)
    reads nm
    ensures r <==> nm != null && nm.lastFailedSSID == ssid && now - nm.lastFailedTime < 10
  {
    if nm != null && nm.lastFailedSSID == ssid then now - nm.lastFailedTime < 10 else false
  }

  /** A failure recorded by the Wi-Fi state update counts as recent for the
    * next ten seconds. */
  method RecentFailureWindow(b: NMState.NetworkManagerBackend, r: NMState.WiFiReading, now: int, k: int)
    returns (recent: bool)
    requires b.hasWiFiDevice && b.state.IsConnecting && b.state.ConnectingSSID != ""
    requires r.iface.Ok? && r.devState == Ok(NMState.DeviceStateFailed)
    requires r.reason != 0 && r.reason != NMState.ReasonNewActivation
    modifies b
    ensures recent <==> k < 10
  {
    var ssid := b.state.ConnectingSSID;
    var err := b.UpdateWiFiState(r, now);
    recent := WasRecentlyFailed(b, ssid, now + k);
  }
}
