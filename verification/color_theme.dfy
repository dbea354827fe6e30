/** `ColorTheme`: an immutable, never-empty palette from which one colour is
    drawn per particle. The random draw is a parameter: `Random.Range(0, n)`
    yields some index in `[0, n)`, modelled as an arbitrary integer `roll`
    reduced modulo the palette length, which reaches every index.
 */
module ColorThemes {
  import opened Types

  /** The palette held by a theme; the public constructor never leaves it empty. */
  type Palette = s: seq<Color> | |s| > 0 witness [White]

  datatype ColorTheme = ColorTheme(colors: Palette)

  /** `s_singleColor`. */
  const SingleColor: Palette := [White]

  /** The constructor: keeps a non-empty array, and falls back to the
      single-white palette for a null or empty one. */
  function NewColorTheme(colors: Option<seq<Color>>): (t: ColorTheme)
    ensures colors.Some? && |colors.value| > 0 ==> t.colors == colors.value
    ensures colors.None? || |colors.value| == 0 ==> t.colors == [White]
  {
    if colors.Some? && |colors.value| > 0 then ColorTheme(colors.value) else ColorTheme(SingleColor)
  }

  /** `GetRandomNext`: the palette entry at index `roll mod n`. */
  function GetRandomNext(t: ColorTheme, roll: int): (c: Color)
    ensures c in t.colors
  {
    t.colors[roll % |t.colors|]
  }

  /** Every palette entry can be drawn: a roll equal to the entry's index
      yields it. */
  lemma EveryColorReachable(t: ColorTheme, k: int)
    requires 0 <= k < |t.colors|
    ensures GetRandomNext(t, k) == t.colors[k]
  {
  }

  /** Whatever the roll, the index drawn lies in `[0, n)` and the colour is
      the palette entry at that index, as `Random.Range(0, n)` promises. */
  lemma DrawnIndexInRange(t: ColorTheme, roll: int)
    ensures 0 <= roll % |t.colors| < |t.colors|
    ensures GetRandomNext(t, roll) == t.colors[roll % |t.colors|]
  {
  }

  /** A theme built from the null palette always draws white. */
  lemma FallbackDrawsWhite(roll: int)
    ensures GetRandomNext(NewColorTheme(None), roll) == White
  {
  }
}
