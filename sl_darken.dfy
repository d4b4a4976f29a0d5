/** Packing of a swaylock pixel into its red, green and blue channels. */
module SlDarken {

  datatype Rgb = Rgb(r: bv8, g: bv8, b: bv8)

  /** Bits 16-23, 8-15 and 0-7 of the pixel become red, green and blue. */
  function FromU32(rgb: bv32): (c: Rgb)
    ensures c.r as bv32 == (rgb >> 16) & 0xFF
    ensures c.g as bv32 == (rgb >> 8) & 0xFF
    ensures c.b as bv32 == rgb & 0xFF
  {
    Rgb(((rgb & 0xff0000) >> 16) as bv8, ((rgb & 0x00ff00) >> 8) as bv8, (rgb & 0x0000ff) as bv8)
  }

  /** Red, green and blue are placed at bits 16, 8 and 0. */
  function ToU32(c: Rgb): (x: bv32)
    ensures x & 0xFF00_0000 == 0
    ensures (x >> 16) & 0xFF == c.r as bv32
    ensures (x >> 8) & 0xFF == c.g as bv32
    ensures x & 0xFF == c.b as bv32
  {
    ((c.r as bv32) << 16) | ((c.g as bv32) << 8) | (c.b as bv32)
  }

  /** Unpacking a packed colour gives it back. */
  lemma FromToU32(c: Rgb)
    ensures FromU32(ToU32(c)) == c
  {
  }

  /** Packing an unpacked pixel keeps its low 24 bits: the alpha byte is
    * dropped. */
  lemma ToFromU32(x: bv32)
    ensures ToU32(FromU32(x)) == x & 0xFF_FFFF
  {
  }
}
