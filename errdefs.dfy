/** Error codes and messages shared by the services. */
module Errdefs {
  // Codes reported in a network state's `LastError`.
  const ErrBadCredentials: string := "bad-credentials"
  const ErrNoSuchSSID: string := "no-such-ssid"
  const ErrAssocTimeout: string := "assoc-timeout"
  const ErrDhcpTimeout: string := "dhcp-timeout"
  const ErrUserCanceled: string := "user-canceled"
  const ErrWifiDisabled: string := "wifi-disabled"
  const ErrAlreadyConnected: string := "already-connected"
  const ErrConnectionFailed: string := "connection-failed"

  // Messages of the typed errors.
  const ErrInvalidTemperature: string := "temperature must be between 1000 and 10000"
  const ErrInvalidGamma: string := "gamma must be between 0 and 10"
  const ErrInvalidLocation: string := "invalid latitude/longitude"
  const ErrInvalidManualTimes: string := "both sunrise and sunset must be set or neither"
  const ErrSecretPromptCancelled: string := "secret prompt cancelled by user"
  const ErrSecretPromptTimeout: string := "secret prompt timed out"
}
