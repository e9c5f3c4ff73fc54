// The colour-psychology panel: which of seven colour names a hue on the wheel
// falls under.

module Psychology {

  datatype Band = Red | Orange | Yellow | Green | Cyan | Blue | Violet

  /** The band boundaries as intervals of hue. Violet takes everything the others leave. */
  predicate InBand(hue: real, band: Band) {
    match band
    case Red => (0.0 <= hue < 30.0) || hue >= 330.0
    case Orange => 30.0 <= hue < 60.0
    case Yellow => 60.0 <= hue < 120.0
    case Green => 120.0 <= hue < 180.0
    case Cyan => 180.0 <= hue < 240.0
    case Blue => 240.0 <= hue < 300.0
    case Violet => hue < 0.0 || (300.0 <= hue < 330.0)
  }

  /** `getColorPsychology`: the first branch of the chain whose test the hue passes. */
  function ColorPsychology(hue: real): (band: Band)
    ensures InBand(hue, band)
  {
    if (hue >= 0.0 && hue < 30.0) || hue >= 330.0 then Red
    else if hue >= 30.0 && hue < 60.0 then Orange
    else if hue >= 60.0 && hue < 120.0 then Yellow
    else if hue >= 120.0 && hue < 180.0 then Green
    else if hue >= 180.0 && hue < 240.0 then Cyan
    else if hue >= 240.0 && hue < 300.0 then Blue
    else Violet
  }

  /** The intervals do not overlap: a hue lies in at most one band. */
  lemma BandsDisjoint(hue: real, b1: Band, b2: Band)
    requires InBand(hue, b1) && InBand(hue, b2)
    ensures b1 == b2
  {
  }

  /** So the classifier picks a band exactly when the hue lies in it. */
  lemma ColorPsychologyExactly(hue: real, band: Band)
    ensures ColorPsychology(hue) == band <==> InBand(hue, band)
  {
    if InBand(hue, band) {
      BandsDisjoint(hue, band, ColorPsychology(hue));
    }
  }

  /** The heading the panel shows for each band. */
  function BandName(band: Band): string {
    match band
    case Red => "Rot"
    case Orange => "Orange"
    case Yellow => "Gelb"
    case Green => "Grün"
    case Cyan => "Cyan/Türkis"
    case Blue => "Blau"
    case Violet => "Violett/Lila"
  }

  /** Every band has its own heading. */
  lemma BandNamesDistinct(b1: Band, b2: Band)
    requires b1 != b2
    ensures BandName(b1) != BandName(b2)
  {
    var n1, n2 := BandName(b1), BandName(b2);
    assert n1[0] != n2[0] || n1[1] != n2[1] || |n1| != |n2|;
  }
}
