/**
  The data part of the map legend: one (colour, label) entry per band,
  built from the list of band lower bounds in ascending order.
 */
module Legend {
  import opened JsValues
  import opened DepthColor

  /** The lower bounds the legend is built from, in km. */
  const LegendDepths: seq<nat> := [0, 10, 30, 50, 70, 90]

  /** A legend line: the swatch colour and its text. */
  datatype Entry = Entry(color: Color, text: string)

  /** The decimal digit character for `d`. */
  function DigitChar(d: nat): char
    requires d < 10
  {
    "0123456789"[d]
  }

  /** How a template literal writes a non-negative integer: its decimal
      digits, most significant first, with no leading zeros. */
  function Show(n: nat): (s: string)
    ensures |s| >= 1
    ensures forall k :: 0 <= k < |s| ==> '0' <= s[k] <= '9'
  {
    if n < 10 then [DigitChar(n)] else Show(n / 10) + [DigitChar(n % 10)]
  }

  /** The value of a string of decimal digits. */
  function DigitsValue(s: string): nat
    requires forall k :: 0 <= k < |s| ==> '0' <= s[k] <= '9'
  {
    if s == [] then 0
    else DigitsValue(s[..|s| - 1]) * 10 + ((s[|s| - 1] as int) - ('0' as int))
  }

  /** Reading back a written integer gives the integer, and the text has
      no leading zero: the label text loses no information about a bound. */
  lemma {:induction false} ShowRoundTrip(n: nat)
    ensures DigitsValue(Show(n)) == n
    ensures |Show(n)| > 1 ==> Show(n)[0] != '0'
  {
    if n >= 10 {
      ShowRoundTrip(n / 10);
      var s := Show(n);
      assert s[..|s| - 1] == Show(n / 10);
    }
  }

  /** The text of entry `i`: `"lo - hi km"`, or `"lo+ km"` for the last entry. */
  function Label(depths: seq<nat>, i: nat): string
    requires i < |depths|
  {
    if i == |depths| - 1 then Show(depths[i]) + "+ km"
    else Show(depths[i]) + " - " + Show(depths[i + 1]) + " km"
  }

  /** One entry per lower bound, in the list's order; the swatch of each
      is what `getColor` gives that lower bound. */
  function Entries(depths: seq<nat>): (r: seq<Entry>)
    ensures |r| == |depths|
  {
    seq(|depths|, i requires 0 <= i < |depths| =>
      Entry(GetColor(Number(depths[i] as real)), Label(depths, i)))
  }

  /** The legend the page shows. */
  function TheLegend(): seq<Entry>
  {
    Entries(LegendDepths)
  }

  /** Entry `i`'s swatch is `getColor` of its lower bound, which is the
      palette colour of band `i`. */
  lemma EntryColor(i: nat)
    requires i < |LegendDepths|
    ensures TheLegend()[i].color == GetColor(Number(LegendDepths[i] as real)) == Palette[i]
  {
    if i == 0 {
      GetColorIsBandColor(0.0);
    } else {
      assert LegendDepths[i] as real == Cuts[i - 1];
      BandBoundaries(i, 0.0);
    }
  }

  /** The legend's lower bounds start at 0, continue with the band cut
      points, and ascend. */
  lemma LegendBounds()
    ensures |LegendDepths| == |Palette|
    ensures LegendDepths[0] == 0
    ensures forall i :: 1 <= i < |LegendDepths| ==> LegendDepths[i] as real == Cuts[i - 1]
    ensures forall i :: 0 <= i < |LegendDepths| - 1 ==> LegendDepths[i] < LegendDepths[i + 1]
  {
  }

  /** The legend has one entry per band, and its colours are the palette
      in band order, each one `getColor` of the entry's lower bound. */
  lemma LegendShape()
    ensures |TheLegend()| == |Palette|
    ensures forall i :: 0 <= i < |TheLegend()| ==>
      TheLegend()[i].color == GetColor(Number(LegendDepths[i] as real)) == Palette[i]
  {
    forall i | 0 <= i < |TheLegend()|
      ensures TheLegend()[i].color == GetColor(Number(LegendDepths[i] as real)) == Palette[i]
    {
      EntryColor(i);
    }
  }

  /** Legend and encoder agree: a non-negative depth gets the colour of
      legend entry `i` exactly when it lies between that entry's lower
      bound and the next entry's (the last entry is unbounded above). */
  lemma LegendAgreesWithEncoder(d: real, i: nat)
    requires 0.0 <= d
    requires i < |TheLegend()|
    ensures GetColor(Number(d)) == TheLegend()[i].color
        <==> LegendDepths[i] as real <= d
             && (i == |LegendDepths| - 1 || d < LegendDepths[i + 1] as real)
  {
    EntryColor(i);
    GetColorIsBandColor(d);
    BandIsUnique(d, i);
    assert i == 0 || LegendDepths[i] as real == Cuts[i - 1];
    assert i == |LegendDepths| - 1 || LegendDepths[i + 1] as real == Cuts[i];
  }

  /** Negative depths, which no legend range covers, are drawn in the
      colour of the first legend entry. */
  lemma NegativeDepthUsesFirstEntry(d: real)
    requires d < 0.0
    ensures GetColor(Number(d)) == TheLegend()[0].color
  {
    EntryColor(0);
    GetColorTotal(Number(d));
  }

  /** The decimal text of each legend bound. */
  lemma ShowLegendDepths()
    ensures Show(0) == "0" && Show(10) == "10" && Show(30) == "30"
    ensures Show(50) == "50" && Show(70) == "70" && Show(90) == "90"
  {
    assert Show(1) == "1" && Show(3) == "3" && Show(5) == "5";
    assert Show(7) == "7" && Show(9) == "9";
  }

  /** The legend texts, top to bottom. */
  lemma LegendLabels()
    ensures forall i :: 0 <= i < |TheLegend()| ==> TheLegend()[i].text == Label(LegendDepths, i)
    ensures [TheLegend()[0].text, TheLegend()[1].text, TheLegend()[2].text,
             TheLegend()[3].text, TheLegend()[4].text, TheLegend()[5].text]
         == ["0 - 10 km", "10 - 30 km", "30 - 50 km", "50 - 70 km", "70 - 90 km", "90+ km"]
  {
    ShowLegendDepths();
    assert Label(LegendDepths, 0) == "0 - 10 km";
    assert Label(LegendDepths, 1) == "10 - 30 km";
    assert Label(LegendDepths, 2) == "30 - 50 km";
    assert Label(LegendDepths, 3) == "50 - 70 km";
    assert Label(LegendDepths, 4) == "70 - 90 km";
    assert Label(LegendDepths, 5) == "90+ km";
  }
}
