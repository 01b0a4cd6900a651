/**
 * data_breakdown.py's `color_cell_based_on_percentage`: ten left-closed bands
 * of ten points over [0, 100], the last one closed at 100, each with its fill
 * colour; a percentage outside [0, 100] leaves the cell's fill alone.
 */
module ColourBands {
  import opened Wrappers

  /** The band colours from green (0 to 10) to very dark red (90 to 100). */
  const Palette: seq<string> := [
    "00FF00", "66FF00", "CCFF00", "FFFF00", "FFCC00",
    "FF9900", "FF6600", "FF3300", "FF0000", "990000"]

  /**
   * The if/elif chain choosing the colour, or None when no branch applies:
   * it is total on [0, 100], empty outside it, and gives a percentage of
   * band k the k-th colour of the palette.
   */
  function ColourFor(p: real): (colour: Option<string>)
    ensures colour.Some? <==> 0.0 <= p <= 100.0
    ensures forall k: nat :: k < 10 && InBand(p, k) ==> colour == Some(Palette[k])
  {
    if 0.0 <= p < 10.0 then Some("00FF00")
    else if 10.0 <= p < 20.0 then Some("66FF00")
    else if 20.0 <= p < 30.0 then Some("CCFF00")
    else if 30.0 <= p < 40.0 then Some("FFFF00")
    else if 40.0 <= p < 50.0 then Some("FFCC00")
    else if 50.0 <= p < 60.0 then Some("FF9900")
    else if 60.0 <= p < 70.0 then Some("FF6600")
    else if 70.0 <= p < 80.0 then Some("FF3300")
    else if 80.0 <= p < 90.0 then Some("FF0000")
    else if 90.0 <= p <= 100.0 then Some("990000")
    else None
  }

  /** Band k covers [10k, 10k + 10), except the last, which covers [90, 100]. */
  predicate InBand(p: real, k: nat) {
    10.0 * k as real <= p && (p < 10.0 * k as real + 10.0 || (k == 9 && p <= 100.0))
  }

  /** The ten colours are distinct, so a colour names its band. */
  lemma PaletteDistinct()
    ensures |Palette| == 10
    ensures forall j, k :: 0 <= j < k < |Palette| ==> Palette[j] != Palette[k]
  {
  }

  /** A percentage receives the colour of band k exactly when it lies in band k. */
  lemma ColourIsBand(p: real, k: nat)
    requires k < 10
    ensures ColourFor(p) == Some(Palette[k]) <==> InBand(p, k)
  {
    PaletteDistinct();
  }

  /** Every percentage lies in exactly one band. */
  lemma BandsPartition(p: real)
    requires 0.0 <= p <= 100.0
    ensures exists k: nat :: k < 10 && InBand(p, k)
    ensures forall j: nat, k: nat :: j < k < 10 && InBand(p, j) ==> !InBand(p, k)
  {
    var k: nat := if p >= 90.0 then 9 else (p / 10.0).Floor;
    assert InBand(p, k) by {
      if p < 90.0 {
        assert 10.0 * k as real <= p < 10.0 * k as real + 10.0;
      }
    }
  }

  /** A worksheet cell's fill: None until a pattern fill is set on it. */
  class Cell {
    var fill: Option<string>

    constructor ()
      ensures fill == None
    {
      fill := None;
    }
  }

  /** Sets a solid fill in the band's colour, or leaves the cell untouched outside [0, 100]. */
  method ColourCell(cell: Cell, percentage: real)
    modifies cell
    ensures 0.0 <= percentage <= 100.0 ==> cell.fill == ColourFor(percentage) && cell.fill.Some?
    ensures !(0.0 <= percentage <= 100.0) ==> cell.fill == old(cell.fill)
  {
    var colour := ColourFor(percentage);
    if colour.Some? {
      cell.fill := colour;
    }
  }
}
