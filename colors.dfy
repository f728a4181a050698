/** The colour palette of the puzzles: ten puzzle colours plus a few sentinels. */
module Colors {
  /** A colour value as the program stores it in a grid cell. */
  type Color = int

  const Black: Color := 0
  const Blue: Color := 1
  const Red: Color := 2
  const Green: Color := 3
  const Yellow: Color := 4
  const Grey: Color := 5
  const Fuschia: Color := 6
  const Orange: Color := 7
  const Teal: Color := 8
  const Brown: Color := 9
  const TrueBlack: Color := 10
  const NotWritten: Color := 11

  /** Boolean grids reuse the palette: false is black, true is blue. */
  const False: Color := 0
  const True: Color := 1
  const NoColor: Color := -1

  /**
   * JavaScript yields `undefined` when a colour is read past the end of an
   * array; the model writes that value as a number no palette entry uses.
   */
  const Undefined: Color := -2

  function ColorOfBool(b: bool): (c: Color)
    ensures c == True <==> b
    ensures c == False <==> !b
  {
    if b then True else False
  }
}
