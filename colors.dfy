/**
 * Colours as tags. The interface only ever picks one of a few named colours
 * and, for buttons, scales its alpha; the RGB values are not modelled.
 */
module Colors {

  datatype Color = Green | OffWhite | Red | Orange | Blue | Purple | Black | White | GreenShamrock

  /** A named colour drawn at `alphaPercent` percent of its alpha. */
  datatype Tint = Tint(color: Color, alphaPercent: nat)

  function Opaque(c: Color): Tint { Tint(c, 100) }

  /** `Color::scale_alpha(percent / 100)`. */
  function ScaleAlpha(t: Tint, percent: nat): (r: Tint)
    ensures r.color == t.color
    ensures t.alphaPercent == 100 ==> r.alphaPercent == percent
  {
    Tint(t.color, t.alphaPercent * percent / 100)
  }
}
