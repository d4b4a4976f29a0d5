/** The DDC/CI brightness backend: the framing of VCP get and set packets,
  * the decoding of a VCP reply, and the linear conversion between a
  * percentage and a monitor's brightness level. */
module BrightnessDdc {
  import opened Common
  import Strs

  type Byte = bv8

  const DdcciVcpGet: Byte := 0x01
  const DdcciVcpSet: Byte := 0x03
  const VcpBrightness: Byte := 0x10
  const DdcSourceAddr: Byte := 0x51
  /** The checksum seed: the display's write address 0x37 shifted left. */
  const ChecksumSeed: Byte := 0x6E

  // ---------------------------------------------------------------------
  // Framing

  /** `seed` XOR every byte of `bytes`. */
  function XorFold(seed: Byte, bytes: seq<Byte>): Byte
  {
    if |bytes| == 0 then seed else XorFold(seed, bytes[..|bytes| - 1]) ^ bytes[|bytes| - 1]
  }

  /** `ddcciChecksum`: 0x6E XOR every byte of the payload. */
  method DdcciChecksum(payload: seq<Byte>) returns (sum: Byte)
    ensures sum == XorFold(ChecksumSeed, payload)
  {
    sum := ChecksumSeed;
    for i := 0 to |payload|
      invariant sum == XorFold(ChecksumSeed, payload[..i])
    {
      assert payload[..i + 1][..i] == payload[..i];
      sum := sum ^ payload[i];
    }
    assert payload[..|payload|] == payload;
  }

  /** Appending the checksum makes the whole packet fold to zero, which is
    * how the display checks it. */
  lemma ChecksumClosesPacket(payload: seq<Byte>)
    ensures XorFold(ChecksumSeed, payload + [XorFold(ChecksumSeed, payload)]) == 0
  {
    var p := payload + [XorFold(ChecksumSeed, payload)];
    assert p[..|p| - 1] == payload;
  }

  /** The packet for a request with `data`: the source address, the length
    * with the high bit set, the data and the checksum of all before it. */
  function Packet(data: seq<Byte>): (p: seq<Byte>)
    requires |data| < 0x80
    ensures |p| == |data| + 3 && p[0] == DdcSourceAddr && p[1] == (|data| as Byte) | 0x80
    ensures p[2..|p| - 1] == data
    ensures XorFold(ChecksumSeed, p) == 0
  {
    var payload := [DdcSourceAddr, (|data| as Byte) | 0x80] + data;
    ChecksumClosesPacket(payload);
    payload + [XorFold(ChecksumSeed, payload)]
  }

  /** `byte(x)`: the low eight bits. */
  function LowByte(x: int): (b: Byte)
    ensures 0 <= x < 256 ==> b as int == x
  {
    var r := x % 256;
    assert 0 <= r < 256;
    r as Byte
  }

  /** The data of a VCP set: the opcode, the feature, and the value's high
    * and low byte. */
  function SetData(vcp: Byte, value: int): (data: seq<Byte>)
    ensures |data| == 4 && data[0] == DdcciVcpSet && data[1] == vcp
    ensures 0 <= value < 0x1_0000 ==> BigEndian16(data[2], data[3]) == value
  {
    var hi, lo := value / 256, value % 256;
    assert 0 <= value < 0x1_0000 ==> 0 <= hi < 256 && hi * 256 + lo == value;
    [DdcciVcpSet, vcp, LowByte(hi), LowByte(lo)]
  }

  /** The data of a VCP get request. */
  function GetData(vcp: Byte): (data: seq<Byte>)
    ensures data == [DdcciVcpGet, vcp]
  {
    [DdcciVcpGet, vcp]
  }

  /** `binary.BigEndian.Uint16` on two bytes. */
  function BigEndian16(hi: Byte, lo: Byte): (v: int)
    ensures 0 <= v < 0x1_0000
  {
    hi as int * 256 + lo as int
  }

  // ---------------------------------------------------------------------
  // Replies

  datatype Capability = Capability(vcp: Byte, max: int, current: int)

  /** Two lower-case hexadecimal digits, as `%02x` prints a byte. */
  function Hex2(b: Byte): (s: string)
    ensures |s| == 2
  {
    var digits := "0123456789abcdef";
    [digits[b as int / 16], digits[b as int % 16]]
  }

  /** The decoding half of `getVCPFeature`: `n` bytes were read into the
    * 12-byte buffer, with `readErr` the read's error. Fewer than 8 bytes is
    * a read error; the reply must come from 0x6E and be a VCP reply (0x02)
    * with result 0 for the requested feature; the maximum and the current
    * value are big-endian at bytes 6-7 and 8-9. */
  function ParseVcpReply(response: seq<Byte>, n: int, readErr: Option<string>, vcp: Byte)
    : (r: Result<Capability>)
    requires |response| == 12
    ensures r.Ok? <==>
              readErr.None? && n >= 8 && response[0] == 0x6E && response[2] == 0x02
              && response[3] == 0 && response[4] == vcp
    ensures r.Ok? ==>
              r.value == Capability(vcp, BigEndian16(response[6], response[7]),
                                    BigEndian16(response[8], response[9]))
    ensures readErr.None? && n >= 8 && response[0] == 0x6E && response[2] == 0x02 && response[3] != 0 ==>
              r == Err("vcp feature not supported")
  {
    if readErr.Some? || n < 8 then
      Err("read i2c: " + (if readErr.Some? then readErr.value else "%!w(<nil>)"))
    else if response[0] != 0x6E || response[2] != 0x02 then Err("invalid ddc response")
    else if response[3] != 0x00 then Err("vcp feature not supported")
    else if response[4] != vcp then
      Err("vcp mismatch: wanted 0x" + Hex2(vcp) + ", got 0x" + Hex2(response[4]))
    else Ok(Capability(vcp, BigEndian16(response[6], response[7]), BigEndian16(response[8], response[9])))
  }

  /** A reply carrying a level the set packet encoded decodes to that
    * level. */
  lemma SetValueRoundTrip(vcp: Byte, value: int, max: int, response: seq<Byte>)
    requires 0 <= value < 0x1_0000 && 0 <= max < 0x1_0000 && |response| == 12
    requires response[0] == 0x6E && response[2] == 0x02 && response[3] == 0 && response[4] == vcp
    requires response[6..8] == SetData(vcp, max)[2..] && response[8..10] == SetData(vcp, value)[2..]
    ensures ParseVcpReply(response, 12, None, vcp) == Ok(Capability(vcp, max, value))
  {
    assert response[6] == SetData(vcp, max)[2] && response[7] == SetData(vcp, max)[3];
    assert response[8] == SetData(vcp, value)[2] && response[9] == SetData(vcp, value)[3];
  }

  // ---------------------------------------------------------------------
  // Conversions

  /** `percentToValue` in linear mode: levels start at 1; 0% is 1, and
    * 1%..100% spread over 1..max with truncating division, held to
    * `[1, max]`. */
  function PercentToValue(percent: int, max: int): (value: int)
    ensures percent == 0 ==> value == 1
    ensures max >= 1 ==> 1 <= value <= max
    ensures max >= 1 && percent == 100 ==> value == max
  {
    if percent == 0 then 1
    else
      var v := 1 + GoDiv((percent - 1) * (max - 1), 99);
      var lifted := if v < 1 then 1 else v;
      if lifted > max then max else lifted
  }

  /** `valueToPercent` in linear mode: an unknown maximum (0) gives 0, a
    * level of at most 1 gives 1, a one-level display 100, otherwise the
    * level scaled back and held to `[1, 100]`. */
  function ValueToPercent(value: int, max: int): (percent: int)
    ensures max == 0 <==> percent == 0
    ensures 0 <= percent <= 100
    ensures max != 0 && value <= 1 ==> percent == 1
    ensures max == 1 && value > 1 ==> percent == 100
  {
    if max == 0 then 0
    else if value <= 1 then 1
    else
      var usableRange := max - 1;
      if usableRange == 0 then 100
      else
        var p := 1 + GoDiv((value - 1) * 99, usableRange);
        var capped := if p > 100 then 100 else p;
        if capped < 1 then 1 else capped
  }

  /** On a display with a maximum of at least 100, a percentage of 1..100
    * comes back from its level exactly or one lower, and 0% comes back as
    * 1%. */
  lemma LinearRoundTrip(percent: int, max: int)
    requires max >= 100 && 0 <= percent <= 100
    ensures percent == 0 ==> ValueToPercent(PercentToValue(0, max), max) == 1
    ensures percent >= 1 ==> percent - 1 <= ValueToPercent(PercentToValue(percent, max), max) <= percent
  {
    if percent >= 1 {
      ScaleRoundTrip(percent - 1, max - 1);
    }
  }

  // ---------------------------------------------------------------------
  // Set requests

  /** The backend's known displays and the latest level waiting for each
    * display's debounce timer. */
  class DDCBackend {
    var devices: set<string>
    var debouncePending: map<string, int>

    constructor (ids: set<string>)
      ensures devices == ids && debouncePending == map[]
    {
      devices, debouncePending := ids, map[];
    }

    /** `SetBrightness`: an unknown display or a value outside 0..100 is an
      * error and changes nothing; otherwise the value replaces whatever was
      * waiting for that display. */
    method SetBrightness(id: string, value: int) returns (err: Option<string>)
      modifies this
      ensures devices == old(devices)
      ensures id !in devices ==>
                err == Some("device not found: " + id) && debouncePending == old(debouncePending)
      ensures id in devices && !(0 <= value <= 100) ==>
                err == Some("value out of range: " + Strs.IntToString(value))
                && debouncePending == old(debouncePending)
      ensures id in devices && 0 <= value <= 100 ==>
                err == None && debouncePending == old(debouncePending)[id := value]
    {
      if id !in devices {
        return Some("device not found: " + id);
      }
      if value < 0 || value > 100 {
        return Some("value out of range: " + Strs.IntToString(value));
      }
      debouncePending := debouncePending[id := value];
      return None;
    }
  }

  /** Two quick requests for one display leave only the second waiting. */
  method LastRequestWins(b: DDCBackend, id: string, first: int, second: int)
    requires id in b.devices && 0 <= first <= 100 && 0 <= second <= 100
    modifies b
    ensures id in b.debouncePending && b.debouncePending[id] == second
  {
    var e1 := b.SetBrightness(id, first);
    var e2 := b.SetBrightness(id, second);
  }
}
