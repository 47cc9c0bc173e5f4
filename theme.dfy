/**
 * The accent colour setting (utils/ThemeHelper.java): one integer entry of
 * the "theme_prefs" store with a default, and the fixed list of preset
 * colours. Colours are Java `int`s holding ARGB values.
 */
module Theme {

  const AccentColorKey: string := "accent_color"

  /** The Java `int` a 32-bit ARGB value reads as (the top bit is the sign). */
  function ToJavaInt(argb: nat): (c: int)
    requires argb < 0x1_0000_0000
    ensures -0x8000_0000 <= c < 0x8000_0000
    ensures c % 0x1_0000_0000 == argb
  {
    if argb < 0x8000_0000 then argb else argb - 0x1_0000_0000
  }

  /** A colour whose alpha byte is 0xFF, which as a Java int is below zero and at least -2^24. */
  predicate IsOpaque(c: int) {
    -0x100_0000 <= c < 0
  }

  const DefaultColor: int := ToJavaInt(0xFF62_00EE)  // purple, "#FF6200EE"
  const Teal: int := ToJavaInt(0xFF03_DAC5)
  const Orange: int := ToJavaInt(0xFFFF_5722)
  const Amber: int := ToJavaInt(0xFFFF_C107)
  const Green: int := ToJavaInt(0xFF4C_AF50)
  const Blue: int := ToJavaInt(0xFF21_96F3)
  const Pink: int := ToJavaInt(0xFFE9_1E63)
  const White: int := ToJavaInt(0xFFFF_FFFF)  // "#FFFFFF": a six-digit colour gets alpha 0xFF
  const Red: int := ToJavaInt(0xFFF4_4336)    // "#F44336"

  /** `getAccentColor`: the saved colour, or the default when none was saved. */
  function GetAccentColor(prefs: map<string, int>): (c: int)
    ensures AccentColorKey !in prefs ==> c == DefaultColor
    ensures AccentColorKey in prefs ==> c == prefs[AccentColorKey]
  {
    if AccentColorKey in prefs then prefs[AccentColorKey] else DefaultColor
  }

  /** `getPresetColors`: nine distinct opaque colours, the default first. */
  method GetPresetColors() returns (colors: seq<int>)
    ensures |colors| == 9 && colors[0] == DefaultColor
    ensures forall i, j :: 0 <= i < j < |colors| ==> colors[i] != colors[j]
    ensures forall i :: 0 <= i < |colors| ==> IsOpaque(colors[i])
  {
    colors := [];
    colors := colors + [DefaultColor];
    colors := colors + [Teal];
    colors := colors + [Orange];
    colors := colors + [Amber];
    colors := colors + [Green];
    colors := colors + [Blue];
    colors := colors + [Pink];
    colors := colors + [White];
    colors := colors + [Red];
  }

  /** The "theme_prefs" store. */
  class ThemePreferences {
    var prefs: map<string, int>

    constructor (prefs: map<string, int>)
      ensures this.prefs == prefs
    {
      this.prefs := prefs;
    }

    /** `saveAccentColor`: only the accent entry changes, and reading it gives `color`. */
    method SaveAccentColor(color: int)
      modifies this
      ensures prefs == old(prefs)[AccentColorKey := color]
      ensures GetAccentColor(prefs) == color
    {
      prefs := prefs[AccentColorKey := color];
    }

    /** `resetToDefault`: reading the accent colour gives the default again. */
    method ResetToDefault()
      modifies this
      ensures prefs == old(prefs)[AccentColorKey := DefaultColor]
      ensures GetAccentColor(prefs) == DefaultColor
    {
      SaveAccentColor(DefaultColor);
    }
  }
}
