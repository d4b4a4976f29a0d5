/** Which I2C buses the DDC/CI probe skips: buses named after SMBus and
  * other non-display controllers, non-`nvkm-` buses under nouveau, and
  * buses whose PCI class is neither a display adapter nor a docking
  * station. */
module BrightnessDdcFilter {
  import Strs

  const IgnorablePrefixes: seq<string> :=
    ["SMBus", "Synopsys DesignWare", "soc:i2cdsi", "smu", "mac-io", "u4", "AMDGPU SMU"]

  /** `isIgnorableI2CDeviceName`. */
  function IsIgnorableI2CDeviceName(name: string, driver: string): (r: bool)
    ensures r <==>
              (exists k :: 0 <= k < |IgnorablePrefixes| && Strs.HasPrefix(name, IgnorablePrefixes[k]))
              || (driver == "nouveau" && !Strs.HasPrefix(name, "nvkm-"))
  {
    if Strs.HasAnyPrefix(name, IgnorablePrefixes) then true
    else driver == "nouveau" && !Strs.HasPrefix(name, "nvkm-")
  }

  const ClassDisplay: bv32 := 0x03_0000
  const ClassDocking: bv32 := 0x0A_0000

  /** The class rule: a known class other than a display adapter or a
    * docking station is skipped, whatever its subclass. */
  predicate IgnorableClass(pciClass: bv32)
  {
    pciClass & 0xFFFF_0000 != ClassDisplay && pciClass & 0xFFFF_0000 != ClassDocking
  }

  /** `isIgnorableI2CBus` on what sysfs says of the bus: its name ("" when
    * unreadable), its driver, and its PCI class (0 when unreadable). */
  function IsIgnorableI2CBus(name: string, driver: string, pciClass: bv32): (r: bool)
    ensures name != "" && IsIgnorableI2CDeviceName(name, driver) ==> r
    ensures (name == "" || !IsIgnorableI2CDeviceName(name, driver)) ==>
              (r <==> pciClass != 0 && IgnorableClass(pciClass))
  {
    if name != "" && IsIgnorableI2CDeviceName(name, driver) then true
    else if pciClass != 0 then IgnorableClass(pciClass)
    else false
  }

  /** The class rule looks only at the base class: every subclass of a
    * display adapter or docking station is probed. */
  lemma SubclassesProbed(sub: bv32)
    requires sub < 0x1_0000
    ensures !IgnorableClass(ClassDisplay | sub) && !IgnorableClass(ClassDocking | sub)
  {
  }

  /** The name rules on the shapes the probe meets. */
  lemma NameExamples()
    ensures IsIgnorableI2CDeviceName("AMDGPU SMU", "amdgpu")
    ensures IsIgnorableI2CDeviceName("SMBus I801 adapter at efa0", "")
    ensures IsIgnorableI2CDeviceName("i2c-0", "nouveau")
    ensures !IsIgnorableI2CDeviceName("nvkm-0000:01:00.0-bus-0000", "nouveau")
  {
    assert Strs.HasPrefix("AMDGPU SMU", IgnorablePrefixes[6]);
    assert Strs.HasPrefix("SMBus I801 adapter at efa0", IgnorablePrefixes[0]);
    NoPrefixStartsWithN("nvkm-0000:01:00.0-bus-0000");
  }

  /** No ignorable prefix starts with 'n', so no name starting with 'n'
    * carries one. */
  lemma NoPrefixStartsWithN(name: string)
    requires |name| > 0 && name[0] == 'n'
    ensures forall k :: 0 <= k < |IgnorablePrefixes| ==> !Strs.HasPrefix(name, IgnorablePrefixes[k])
  {
    forall k | 0 <= k < |IgnorablePrefixes| ensures !Strs.HasPrefix(name, IgnorablePrefixes[k]) {
      assert IgnorablePrefixes[k][0] != 'n';
    }
  }
}
