/**
  The depth-to-colour encoder of the earthquake map: six half-open depth
  bands, each lower-inclusive, cut at 10, 30, 50, 70 and 90 km, each bound
  to one colour token. The first band is unbounded below and the last
  unbounded above.
 */
module DepthColor {
  import opened JsValues

  /** The six colour tokens, in band order. */
  datatype Color = LightGreen | Gold | Orange | OrangeRed | Crimson | DarkRed

  /** The hex string each token is written as on the page. */
  function Hex(c: Color): string
  {
    match c
    case LightGreen => "#7FFF00"
    case Gold => "#FFD700"
    case Orange => "#FFA500"
    case OrangeRed => "#FF4500"
    case Crimson => "#DC143C"
    case DarkRed => "#8B0000"
  }

  /** The colour of each band, shallowest first. */
  const Palette: seq<Color> := [LightGreen, Gold, Orange, OrangeRed, Crimson, DarkRed]

  /** The cut points between consecutive bands, ascending. */
  const Cuts: seq<real> := [10.0, 30.0, 50.0, 70.0, 90.0]

  /** Position of a colour in the palette, i.e. the band it stands for. */
  function Rank(c: Color): (i: nat)
    ensures i < |Palette| && Palette[i] == c
  {
    match c
    case LightGreen => 0
    case Gold => 1
    case Orange => 2
    case OrangeRed => 3
    case Crimson => 4
    case DarkRed => 5
  }

  /** `getColor(depth)`: a chain of `depth < cut` tests, falling through to
      the deepest colour. Each test coerces `depth` to a number, so a depth
      that coerces to NaN fails all of them. */
  function GetColor(depth: JsValue): Color
  {
    if LessThan(depth, 10.0) then LightGreen
    else if LessThan(depth, 30.0) then Gold
    else if LessThan(depth, 50.0) then Orange
    else if LessThan(depth, 70.0) then OrangeRed
    else if LessThan(depth, 90.0) then Crimson
    else DarkRed
  }

  /** Number of cut points at or below `d`: the reference definition of
      the band a depth falls in. */
  function CutsAtOrBelow(cuts: seq<real>, d: real): (n: nat)
    ensures n <= |cuts|
  {
    if cuts == [] then 0
    else (if cuts[0] <= d then 1 else 0) + CutsAtOrBelow(cuts[1..], d)
  }

  /** The band index of a real depth. */
  function Band(d: real): (i: nat)
    ensures i < |Palette|
  {
    CutsAtOrBelow(Cuts, d)
  }

  /** `d` lies in band `i`: at or above its lower cut (none for band 0),
      strictly below its upper cut (none for band 5). */
  predicate InBand(d: real, i: nat)
  {
    && i < |Palette|
    && (i == 0 || Cuts[i - 1] <= d)
    && (i == |Palette| - 1 || d < Cuts[i])
  }

  /** In an ascending list of cut points, `d` is at or above exactly the
      first `k` of them iff it lies between cut `k-1` and cut `k`. */
  lemma {:induction false} CutsAtOrBelowIsPosition(cuts: seq<real>, d: real, k: nat)
    requires forall i, j :: 0 <= i < j < |cuts| ==> cuts[i] < cuts[j]
    requires k <= |cuts|
    ensures CutsAtOrBelow(cuts, d) == k
        <==> (k == 0 || cuts[k - 1] <= d) && (k == |cuts| || d < cuts[k])
  {
    if cuts == [] {
    } else if k == 0 {
      if cuts[0] <= d {
        assert CutsAtOrBelow(cuts, d) >= 1;
      } else {
        CutsAtOrBelowNone(cuts[1..], d);
      }
    } else {
      CutsAtOrBelowIsPosition(cuts[1..], d, k - 1);
      if cuts[0] <= d {
      } else {
        CutsAtOrBelowNone(cuts[1..], d);
        assert cuts[0] < cuts[k - 1] || k == 1;
      }
    }
  }

  /** Below an ascending list's first cut point, no cut point is at or below. */
  lemma {:induction false} CutsAtOrBelowNone(cuts: seq<real>, d: real)
    requires forall i, j :: 0 <= i < j < |cuts| ==> cuts[i] < cuts[j]
    requires cuts == [] || d < cuts[0]
    ensures CutsAtOrBelow(cuts, d) == 0
  {
    if cuts != [] {
      if |cuts| > 1 {
        assert cuts[0] < cuts[1];
      }
      CutsAtOrBelowNone(cuts[1..], d);
    }
  }

  /** More depth never means fewer cut points passed. */
  lemma {:induction false} CutsAtOrBelowMonotone(cuts: seq<real>, d1: real, d2: real)
    requires d1 <= d2
    ensures CutsAtOrBelow(cuts, d1) <= CutsAtOrBelow(cuts, d2)
  {
    if cuts != [] {
      CutsAtOrBelowMonotone(cuts[1..], d1, d2);
    }
  }

  /** The bands partition the reals: every depth, negative ones included,
      lies in exactly one band, and that band is `Band(d)`. */
  lemma BandIsUnique(d: real, i: nat)
    ensures InBand(d, i) <==> Band(d) == i
  {
    if i <= |Cuts| {
      CutsAtOrBelowIsPosition(Cuts, d, i);
    }
  }

  /** `getColor` on a number picks the colour of the band the number lies in. */
  lemma GetColorIsBandColor(d: real)
    ensures GetColor(Number(d)) == Palette[Band(d)]
    ensures InBand(d, Rank(GetColor(Number(d))))
  {
    var i := Rank(GetColor(Number(d)));
    assert InBand(d, i);
    BandIsUnique(d, i);
  }

  /** A depth that coerces to a number gets the colour of that number's
      band, so negative depths get light green; NaN-like depths
      (`undefined`, NaN) fall through every test to dark red. */
  lemma GetColorTotal(v: JsValue)
    ensures IsNaN(v) ==> GetColor(v) == DarkRed
    ensures !IsNaN(v) ==> GetColor(v) == Palette[Band(ToNumber(v).value)]
    ensures !IsNaN(v) && ToNumber(v).value < 0.0 ==> GetColor(v) == LightGreen
  {
    if !IsNaN(v) {
      var d := ToNumber(v).value;
      GetColorIsBandColor(d);
      assert GetColor(v) == GetColor(Number(d));
    }
  }

  /** The bands are lower-inclusive: each cut point itself already takes the
      deeper colour, and everything just below it the shallower one. */
  lemma BandBoundaries(i: nat, d: real)
    requires 1 <= i < |Palette|
    ensures GetColor(Number(Cuts[i - 1])) == Palette[i]
    ensures d < Cuts[i - 1] ==> Rank(GetColor(Number(d))) < i
    ensures Cuts[i - 1] <= d ==> Rank(GetColor(Number(d))) >= i
  {
    GetColorIsBandColor(Cuts[i - 1]);
    GetColorIsBandColor(d);
  }

  /** `getColor` never moves to a shallower band as depth grows. */
  lemma GetColorMonotone(d1: real, d2: real)
    requires d1 <= d2
    ensures Rank(GetColor(Number(d1))) <= Rank(GetColor(Number(d2)))
  {
    GetColorIsBandColor(d1);
    GetColorIsBandColor(d2);
    CutsAtOrBelowMonotone(Cuts, d1, d2);
  }

  /** Distinct tokens are written as distinct hex strings, so the token
      alone identifies a band on the page. */
  lemma HexInjective(c1: Color, c2: Color)
    ensures Hex(c1) == Hex(c2) <==> c1 == c2
  {
  }
}
