/**
 * `getRatingColor`: the colour AtCoder shows for a rating, as an RGB triple.
 *
 * The ratings are cut into bands 400 wide: below 400 gray, then brown,
 * green, cyan, blue, yellow, orange, and from 2800 upwards red. `Band` and
 * `Palette` give that rule a second, independent statement (the band is
 * `floor(rating / 400)`, held between 0 and 7), and `ColorIsBandColor`
 * proves the if-chain of the source equal to it.
 */
module RatingColor {

  datatype Rgb = Rgb(red: int, green: int, blue: int)

  ghost predicate IsColor(c: Rgb) {
    0 <= c.red <= 255 && 0 <= c.green <= 255 && 0 <= c.blue <= 255
  }

  function GetRatingColor(rating: real): (c: Rgb)
    ensures IsColor(c)
    ensures c == Rgb(128, 128, 128) <==> rating < 400.0
    ensures c == Rgb(255, 0, 0) <==> rating >= 2800.0
  {
    if rating < 400.0 then Rgb(128, 128, 128)
    else if rating < 800.0 then Rgb(128, 64, 0)
    else if rating < 1200.0 then Rgb(0, 128, 0)
    else if rating < 1600.0 then Rgb(0, 192, 192)
    else if rating < 2000.0 then Rgb(0, 0, 255)
    else if rating < 2400.0 then Rgb(192, 192, 0)
    else if rating < 2800.0 then Rgb(255, 128, 0)
    else Rgb(255, 0, 0)
  }

  /** The eight colours, lowest band first. */
  const Palette: seq<Rgb> := [
    Rgb(128, 128, 128), // gray
    Rgb(128, 64, 0),    // brown
    Rgb(0, 128, 0),     // green
    Rgb(0, 192, 192),   // cyan
    Rgb(0, 0, 255),     // blue
    Rgb(192, 192, 0),   // yellow
    Rgb(255, 128, 0),   // orange
    Rgb(255, 0, 0)      // red
  ]

  /** `floor(rating / 400)`, held between 0 and 7. */
  function Band(rating: real): (k: nat)
    ensures k < |Palette|
    ensures 1 <= k <= 6 ==> 400.0 * k as real <= rating < 400.0 * (k + 1) as real
    ensures k == 0 <==> rating < 400.0
    ensures k == 7 <==> rating >= 2800.0
  {
    var f := (rating / 400.0).Floor;
    if f < 0 then 0 else if f > 7 then 7 else f
  }

  /** The if-chain picks the colour of the rating's band. */
  lemma ColorIsBandColor(rating: real)
    ensures GetRatingColor(rating) == Palette[Band(rating)]
  {
  }

  /** Every colour of the palette is a valid RGB triple, and no two bands share one. */
  lemma PaletteDistinct()
    ensures forall i :: 0 <= i < |Palette| ==> IsColor(Palette[i])
    ensures forall i, j :: 0 <= i < j < |Palette| ==> Palette[i] != Palette[j]
  {
  }

  /** Two ratings get the same colour exactly when they lie in the same band. */
  lemma SameColorSameBand(a: real, b: real)
    ensures GetRatingColor(a) == GetRatingColor(b) <==> Band(a) == Band(b)
  {
    ColorIsBandColor(a);
    ColorIsBandColor(b);
    PaletteDistinct();
  }

  /** Each band includes its lower bound: 400 is brown, not gray, and 2400 orange, not yellow. */
  lemma LowerBoundsInclusive()
    ensures GetRatingColor(400.0) == Rgb(128, 64, 0)
    ensures GetRatingColor(2400.0) == Rgb(255, 128, 0)
  {
  }

  /** A higher rating is never in a lower band. */
  lemma BandMonotonic(a: real, b: real)
    requires a <= b
    ensures Band(a) <= Band(b)
  {
    assert a / 400.0 <= b / 400.0;
  }
}
