/** The gamma (night light) service's configuration and published state:
  * which configurations are accepted, the default, and when a new state is
  * worth announcing. */
module WaylandTypes {
  import opened Common
  import opened Errdefs

  /** The configuration. Coordinates and the gamma are Go `float64`s,
    * modelled as reals; a Go pointer left nil is `None`; manual times and
    * durations are instants and lengths in nanoseconds. */
  datatype Config = Config(
    Outputs: seq<string>, LowTemp: int, HighTemp: int,
    Latitude: Option<real>, Longitude: Option<real>, UseIPLocation: bool,
    ManualSunrise: Option<int>, ManualSunset: Option<int>, ManualDuration: Option<int>,
    Gamma: real, Enabled: bool)

  /** The published state; times are instants in nanoseconds, so Go's
    * `time.Time.Equal` is equality. */
  datatype State = State(
    Config: Config, CurrentTemp: int, NextTransition: int, SunriseTime: int, SunsetTime: int,
    IsDay: bool)

  function Abs(x: real): real { if x < 0.0 then -x else x }

  predicate TempInRange(t: int) { 1000 <= t <= 10000 }

  /** Both temperatures in range and ordered. */
  predicate TemperaturesValid(c: Config)
  {
    TempInRange(c.LowTemp) && TempInRange(c.HighTemp) && c.LowTemp <= c.HighTemp
  }

  predicate GammaValid(c: Config) { 0.0 < c.Gamma <= 10.0 }

  /** Each coordinate that is set lies in range, and either both are set or
    * neither is. */
  predicate LocationValid(c: Config)
  {
    (c.Latitude.Some? ==> Abs(c.Latitude.value) <= 90.0)
    && (c.Longitude.Some? ==> Abs(c.Longitude.value) <= 180.0)
    && c.Latitude.Some? == c.Longitude.Some?
  }

  predicate ManualTimesValid(c: Config) { c.ManualSunrise.Some? == c.ManualSunset.Some? }

  /** `Config.Validate`: the first rule broken, in the order temperatures,
    * gamma, location, manual times, names the error. */
  function Validate(c: Config): (err: Option<string>)
    ensures err.None? <==>
              TemperaturesValid(c) && GammaValid(c) && LocationValid(c) && ManualTimesValid(c)
    ensures err == Some(ErrInvalidTemperature) <==> !TemperaturesValid(c)
    ensures err == Some(ErrInvalidGamma) <==> TemperaturesValid(c) && !GammaValid(c)
    ensures err == Some(ErrInvalidLocation) <==>
              TemperaturesValid(c) && GammaValid(c) && !LocationValid(c)
    ensures err == Some(ErrInvalidManualTimes) <==>
              TemperaturesValid(c) && GammaValid(c) && LocationValid(c) && !ManualTimesValid(c)
  {
    if c.LowTemp < 1000 || c.LowTemp > 10000 then Some(ErrInvalidTemperature)
    else if c.HighTemp < 1000 || c.HighTemp > 10000 then Some(ErrInvalidTemperature)
    else if c.LowTemp > c.HighTemp then Some(ErrInvalidTemperature)
    else if c.Gamma <= 0.0 || c.Gamma > 10.0 then Some(ErrInvalidGamma)
    else if c.Latitude.Some? && Abs(c.Latitude.value) > 90.0 then Some(ErrInvalidLocation)
    else if c.Longitude.Some? && Abs(c.Longitude.value) > 180.0 then Some(ErrInvalidLocation)
    else if c.Latitude.Some? != c.Longitude.Some? then Some(ErrInvalidLocation)
    else if c.ManualSunrise.Some? != c.ManualSunset.Some? then Some(ErrInvalidManualTimes)
    else None
  }

  /** `DefaultConfig`: 4000 K to 6500 K, gamma 1, disabled, no location,
    * and it is a valid configuration. */
  function DefaultConfig(): (c: Config)
    ensures c.LowTemp == 4000 && c.HighTemp == 6500 && c.Gamma == 1.0 && !c.Enabled
    ensures c.Latitude.None? && c.Longitude.None? && c.Outputs == []
    ensures Validate(c).None?
  {
    Config([], 4000, 6500, None, None, false, None, None, None, 1.0, false)
  }

  /** The boundary cases of the validation rules: equal temperatures and the
    * extreme coordinates are accepted; gamma 0 and a lone coordinate are
    * not. */
  lemma ValidateBoundaries(c: Config)
    requires c.LowTemp == 5000 && c.HighTemp == 5000 && c.Gamma == 1.0
    requires c.ManualSunrise.None? && c.ManualSunset.None?
    ensures c.Latitude == Some(-90.0) && c.Longitude == Some(180.0) ==> Validate(c).None?
    ensures c.Latitude == Some(40.0) && c.Longitude.None? ==> Validate(c) == Some(ErrInvalidLocation)
    ensures Validate(c.(Gamma := 0.0)) == Some(ErrInvalidGamma)
    ensures Validate(c.(LowTemp := 6500, HighTemp := 4000)) == Some(ErrInvalidTemperature)
  {
  }

  /** `stateChanged`: a missing side always counts as a change; otherwise
    * the temperature, day/night, the three instants and the enabled flag
    * are compared, and nothing else. */
  function StateChanged(prev: Option<State>, next: Option<State>): (changed: bool)
    ensures prev.None? || next.None? ==> changed
    ensures prev.Some? && next.Some? ==>
              (!changed <==>
                 prev.value.CurrentTemp == next.value.CurrentTemp && prev.value.IsDay == next.value.IsDay
                 && prev.value.NextTransition == next.value.NextTransition
                 && prev.value.SunriseTime == next.value.SunriseTime
                 && prev.value.SunsetTime == next.value.SunsetTime
                 && prev.value.Config.Enabled == next.value.Config.Enabled)
  {
    if prev.None? || next.None? then true
    else
      var o, n := prev.value, next.value;
      if o.CurrentTemp != n.CurrentTemp then true
      else if o.IsDay != n.IsDay then true
      else if o.NextTransition != n.NextTransition then true
      else if o.SunriseTime != n.SunriseTime then true
      else if o.SunsetTime != n.SunsetTime then true
      else if o.Config.Enabled != n.Config.Enabled then true
      else false
  }

  /** A state is never a change from itself, and a configuration edit other
    * than enabling or disabling is not announced on its own. */
  lemma StateChangedIgnoresConfigDetails(s: State, c: Config)
    requires c.Enabled == s.Config.Enabled
    ensures !StateChanged(Some(s), Some(s))
    ensures !StateChanged(Some(s), Some(s.(Config := c)))
  {
  }
}
