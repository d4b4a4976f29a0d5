/** The brightness service's records: a device as published, with its
  * class, raw level and percentage. */
module BrightnessTypes {

  const ClassBacklight: string := "backlight"
  const ClassLED: string := "leds"
  const ClassDDC: string := "ddc"

  datatype Device = Device(
    Class: string, ID: string, Name: string, Current: int, Max: int, CurrentPercent: int, Backend: string)
}
