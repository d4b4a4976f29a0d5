/** The sysfs brightness backend in linear mode: a percentage becomes a
  * raw level between the device's minimum and `max_brightness` and back,
  * keyboard and network LEDs are hidden, and a set request is checked
  * before it is written. */
module BrightnessSysfs {
  import opened Common
  import opened BrightnessTypes
  import Strs

  /** A device found under `/sys/class/backlight` or `/sys/class/leds`. */
  datatype SysfsDevice = SysfsDevice(devClass: string, id: string, name: string, maxBrightness: int, minValue: int)

  /** What the scan records for an entry of class `cls` whose `max_brightness`
    * parsed to `maxBrightness` (`None` when it did not parse): nothing
    * unless it is positive; LEDs may go down to 0, backlights to 1. */
  function ScannedDevice(cls: string, name: string, maxBrightness: Option<int>): (d: Option<SysfsDevice>)
    ensures d.Some? <==> maxBrightness.Some? && maxBrightness.value > 0
    ensures d.Some? ==>
              d.value.id == cls + ":" + name && d.value.name == name
              && d.value.maxBrightness == maxBrightness.value
              && d.value.devClass == (if cls == "leds" then ClassLED else ClassBacklight)
              && d.value.minValue == (if cls == "leds" then 0 else 1)
              && ValidDevice(d.value)
  {
    if maxBrightness.None? || maxBrightness.value <= 0 then None
    else if cls == "leds" then Some(SysfsDevice(ClassLED, cls + ":" + name, name, maxBrightness.value, 0))
    else Some(SysfsDevice(ClassBacklight, cls + ":" + name, name, maxBrightness.value, 1))
  }

  /** The minimum does not exceed the maximum. */
  predicate ValidDevice(d: SysfsDevice)
  {
    0 <= d.minValue <= d.maxBrightness
  }

  /** `PercentToValue` in linear mode: 0% is the minimum; otherwise 1%..100%
    * spread over the range with truncating division, then held to
    * `[minValue, maxBrightness]`. */
  function PercentToValue(percent: int, dev: SysfsDevice): (value: int)
    ensures percent == 0 ==> value == dev.minValue
    ensures ValidDevice(dev) ==> dev.minValue <= value <= dev.maxBrightness
    ensures ValidDevice(dev) && percent == 1 ==> value == dev.minValue
    ensures ValidDevice(dev) && percent == 100 ==> value == dev.maxBrightness
  {
    if percent == 0 then dev.minValue
    else
      var usableRange := dev.maxBrightness - dev.minValue;
      var v := dev.minValue + GoDiv((percent - 1) * usableRange, 99);
      var lifted := if v < dev.minValue then dev.minValue else v;
      if lifted > dev.maxBrightness then dev.maxBrightness else lifted
  }

  /** `ValueToPercent` in linear mode: at or below the minimum it is 1, or 0
    * for an LED that is off; a device with a single level is at 100;
    * otherwise the level is scaled back and held to `[1, 100]`. */
  function ValueToPercent(value: int, dev: SysfsDevice): (percent: int)
    ensures 0 <= percent <= 100
    ensures percent == 0 <==> dev.minValue == 0 && value == 0
    ensures value <= dev.minValue ==> percent <= 1
    ensures value > dev.minValue && dev.maxBrightness == dev.minValue ==> percent == 100
  {
    if value <= dev.minValue then
      (if dev.minValue == 0 && value == 0 then 0 else 1)
    else
      var usableRange := dev.maxBrightness - dev.minValue;
      if usableRange == 0 then 100
      else
        var p := 1 + GoDiv((value - dev.minValue) * 99, usableRange);
        var capped := if p > 100 then 100 else p;
        if capped < 1 then 1 else capped
  }

  /** A higher percentage never gives a lower level. */
  lemma PercentToValueMonotone(p1: int, p2: int, dev: SysfsDevice)
    requires 0 <= p1 <= p2 && ValidDevice(dev)
    ensures PercentToValue(p1, dev) <= PercentToValue(p2, dev)
  {
    if p1 > 0 {
      var r := dev.maxBrightness - dev.minValue;
      MulMonotone(r + 1, 0, 0);
      if r > 0 {
        MulMonotone(r, p1 - 1, p2 - 1);
        assert (p1 - 1) * r <= (p2 - 1) * r;
        MulMonotone(r, 0, p1 - 1);
        DivMonotone((p1 - 1) * r, (p2 - 1) * r, 99);
      }
    }
  }

  /** On a device with at least 99 steps above its minimum, a percentage of
    * 1..100 comes back from its level exactly or one lower; 0% comes back
    * as 0 for an LED and 1 for a backlight. */
  lemma LinearRoundTrip(percent: int, dev: SysfsDevice)
    requires ValidDevice(dev) && dev.maxBrightness - dev.minValue >= 99 && 0 <= percent <= 100
    ensures percent == 0 ==> ValueToPercent(PercentToValue(0, dev), dev) == (if dev.minValue == 0 then 0 else 1)
    ensures percent >= 1 ==>
              percent - 1 <= ValueToPercent(PercentToValue(percent, dev), dev) <= percent
  {
    if percent >= 1 {
      ScaleRoundTrip(percent - 1, dev.maxBrightness - dev.minValue);
    }
  }

  /** An LED with one brightness step is off below 100%. */
  lemma SingleStepLed(percent: int, id: string, name: string)
    requires 0 <= percent < 100
    ensures PercentToValue(percent, SysfsDevice(ClassLED, id, name, 1, 0)) == 0
  {
  }

  const KeyboardLEDSuffixes: seq<string> := ["::scrolllock", "::capslock", "::numlock", "::kana", "::compose"]

  /** `shouldSuppressDevice`: network-port and keyboard-lock LEDs are not
    * offered. */
  predicate ShouldSuppressDevice(name: string)
    ensures ShouldSuppressDevice(name) ==>
              exists i :: 0 <= i < |name| - 1 && name[i] == ':' && name[i + 1] == ':'
  {
    var r := Strs.HasSuffix(name, "::lan") || Strs.HasAnySuffix(name, KeyboardLEDSuffixes);
    assert r ==> exists i :: 0 <= i < |name| - 1 && name[i] == ':' && name[i + 1] == ':' by {
      if Strs.HasSuffix(name, "::lan") {
        SeparatorBeforeSuffix(name, "::lan");
      } else if r {
        var k :| 0 <= k < |KeyboardLEDSuffixes| && Strs.HasSuffix(name, KeyboardLEDSuffixes[k]);
        assert KeyboardLEDSuffixes[k][..2] == "::";
        SeparatorBeforeSuffix(name, KeyboardLEDSuffixes[k]);
      }
    }
    r
  }

  /** A name ending in a suffix that starts with "::" holds "::". */
  lemma SeparatorBeforeSuffix(name: string, sfx: string)
    requires |sfx| >= 2 && sfx[..2] == "::" && Strs.HasSuffix(name, sfx)
    ensures exists i :: 0 <= i < |name| - 1 && name[i] == ':' && name[i + 1] == ':'
  {
    var i := |name| - |sfx|;
    assert name[i..][..2] == sfx[..2];
    assert name[i] == ':' && name[i + 1] == ':';
  }

  /** Examples of the suppression rule. */
  lemma SuppressExamples()
    ensures ShouldSuppressDevice("input3::capslock") && ShouldSuppressDevice("enp3s0::lan")
    ensures !ShouldSuppressDevice("intel_backlight")
  {
    assert Strs.HasSuffix("input3::capslock", KeyboardLEDSuffixes[1]);
    assert forall k :: 0 <= k < |KeyboardLEDSuffixes| ==>
             KeyboardLEDSuffixes[k][|KeyboardLEDSuffixes[k]| - 1] != 't';
  }

  /** `SetBrightness` in linear mode up to the write: the device must be
    * known, the percentage in 0..100 and the id of the form class:name;
    * the result is the level to write. */
  function SetBrightnessValue(cache: map<string, SysfsDevice>, id: string, percent: int): (r: Result<int>)
    ensures id !in cache ==> r == Err("device not found: " + id)
    ensures id in cache && !(0 <= percent <= 100) ==>
              r == Err("percent out of range: " + Strs.IntToString(percent))
    ensures id in cache && 0 <= percent <= 100 && ':' !in id ==> r == Err("invalid device id: " + id)
    ensures r.Ok? ==>
              id in cache && 0 <= percent <= 100 && ':' in id
              && r.value == PercentToValue(percent, cache[id])
  {
    if id !in cache then Err("device not found: " + id)
    else if percent < 0 || percent > 100 then Err("percent out of range: " + Strs.IntToString(percent))
    else
      var value := PercentToValue(percent, cache[id]);
      if ':' !in id then Err("invalid device id: " + id)
      else Ok(value)
  }
}
