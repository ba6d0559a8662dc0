/** The CSS font size the editor writes into its stylesheet.

    The size comes from the control's font unless an explicit override has
    been set.  The numbers themselves are formatted floats; the model keeps
    them as the strings the formatting produced (`size` for Font.Size,
    `sizeInPoints` for Font.SizeInPoints), so that only the choice of number
    and unit suffix is modelled. */
module FontSize {
  import opened Results

  /** System.Drawing.GraphicsUnit.  A C# enum variable can also hold a
      number that names no member; `Unnamed` stands for such a value. */
  datatype GraphicsUnit =
    | World | Display | Pixel | Point | Inch | Document | Millimeter
    | Unnamed(code: int)

  /** The parts of System.Drawing.Font the size derivation reads. */
  datatype Font = Font(unit: GraphicsUnit, size: string, sizeInPoints: string)

  /** `s` ends with `suffix`. */
  predicate EndsWith(s: string, suffix: string) {
    |suffix| <= |s| && s[|s| - |suffix|..] == suffix
  }

  /** The font's size as a CSS length.  Pixel fonts keep their pixel size;
      point fonts keep their point size; the other named units are converted
      to points by the font itself; an unnamed unit is rejected. */
  function CssFontSizeWithUnit(font: Font): (r: Result<string>)
    ensures r.Failure? <==> font.unit.Unnamed?
    ensures r.Failure? ==> r.error == ArgumentOutOfRange
    ensures r.Success? ==> EndsWith(r.value, "pt") || EndsWith(r.value, "px")
    ensures r.Success? ==> (EndsWith(r.value, "px") <==> font.unit == Pixel)
    ensures r.Success? ==>
      r.value[..|r.value| - 2] == (if font.unit in {Pixel, Point} then font.size else font.sizeInPoints)
  {
    match font.unit
    case World | Display | Inch | Document | Millimeter => Success(font.sizeInPoints + "pt")
    case Pixel => Success(font.size + "px")
    case Point => Success(font.size + "pt")
    case Unnamed(_) => Failure(ArgumentOutOfRange)
  }

  /** The CssFontSize getter: a non-empty override wins; otherwise the size
      is derived from the font.  A null override reads like an empty one. */
  function CssFontSize(fontSizeOverride: string, font: Font): (r: Result<string>)
    ensures fontSizeOverride != "" ==> r == Success(fontSizeOverride)
    ensures fontSizeOverride == "" ==> r == CssFontSizeWithUnit(font)
    ensures r.Failure? <==> fontSizeOverride == "" && font.unit.Unnamed?
  {
    if fontSizeOverride != "" then Success(fontSizeOverride) else CssFontSizeWithUnit(font)
  }
}
