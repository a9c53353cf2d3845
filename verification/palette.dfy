/** The per-level colour palette: six colours, looked up at colourLevel - 1.
    A lookup outside the table yields nothing (in the source, an undefined
    colour handed to the material). */
module Palette {
  import opened Options

  /** The six level colours, as 24-bit RGB values, in lookup order. */
  const LevelColor: seq<int> := [0x00ff00, 0xE44C64, 0x3950E6, 0x3AE4E6, 0xE63A3A, 0xE6823A]

  /** The colour a cylinder of the given level is drawn with. */
  function PaletteColor(colorLevel: int): (c: Option<int>)
    ensures c.Some? <==> 1 <= colorLevel <= 6
    ensures c.Some? ==> c.value in LevelColor
  {
    if 1 <= colorLevel <= |LevelColor| then Some(LevelColor[colorLevel - 1]) else None
  }

  /** Every level in range is drawn in a colour of its own. */
  lemma PaletteDistinct(a: int, b: int)
    requires 1 <= a <= 6 && 1 <= b <= 6 && a != b
    ensures PaletteColor(a).Some? && PaletteColor(b).Some?
    ensures PaletteColor(a).value != PaletteColor(b).value
  {
  }
}
