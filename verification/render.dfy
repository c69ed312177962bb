/**
  The per-feature render pass: each feature of the fetched collection has
  its coordinates split into longitude, latitude and depth and its
  magnitude read; a feature whose magnitude fails `isNaN` is skipped with
  one diagnostic, every other feature becomes one marker, in feed order.
 */
module Render {
  import opened JsValues
  import opened DepthColor
  import opened Legend

  /** One GeoJSON feature, reduced to what the render pass reads.
      `coordinates` is `None` when `feature.geometry` (or its
      `coordinates`) is null or undefined, so that indexing it throws a
      TypeError; `mag` is `None` when `feature.properties` is null or
      undefined, so that reading `.mag` throws. */
  datatype Feature = Feature(coordinates: Option<seq<JsValue>>, mag: Option<JsValue>)

  /** A placed circle marker: where it goes, the magnitude its radius is
      computed from, and its fill colour. */
  datatype Marker = Marker(lat: JsValue, lng: JsValue, magnitude: JsValue, fillColor: Color)

  /** Reading the coordinates and the magnitude does not throw. */
  predicate WellFormed(f: Feature)
  {
    f.coordinates.Some? && f.mag.Some?
  }

  /** The feature gets a marker: it can be read and its magnitude is a number. */
  predicate Renderable(f: Feature)
  {
    WellFormed(f) && !IsNaN(f.mag.value)
  }

  /** The marker for a readable feature: latitude from `coordinates[1]`,
      longitude from `coordinates[0]`, fill colour from `getColor` of the
      depth in `coordinates[2]`. */
  function MarkerOf(f: Feature): Marker
    requires WellFormed(f)
  {
    var cs := f.coordinates.value;
    Marker(At(cs, 1), At(cs, 0), f.mag.value, GetColor(At(cs, 2)))
  }

  /** Markers placed and diagnostics logged by the loop over the features. */
  datatype Plotted = Plotted(markers: seq<Marker>, diagnostics: nat)

  /** The loop body applied to each feature in turn: a feature that is
      not renderable is skipped with one diagnostic and the loop goes on. */
  function Plot(features: seq<Feature>): (r: Plotted)
    ensures |r.markers| + r.diagnostics == |features|
  {
    if features == [] then Plotted([], 0)
    else
      var rest := Plot(features[1..]);
      if Renderable(features[0]) then Plotted([MarkerOf(features[0])] + rest.markers, rest.diagnostics)
      else Plotted(rest.markers, rest.diagnostics + 1)
  }

  /** The renderable features, in feed order. */
  function Renderables(features: seq<Feature>): (r: seq<Feature>)
    ensures forall k :: 0 <= k < |r| ==> Renderable(r[k])
  {
    if features == [] then []
    else (if Renderable(features[0]) then [features[0]] else []) + Renderables(features[1..])
  }

  /** Number of features that are not renderable. */
  function CountRejected(features: seq<Feature>): nat
  {
    if features == [] then 0
    else (if Renderable(features[0]) then 0 else 1) + CountRejected(features[1..])
  }

  /** Markers of a list of renderable features, one each, same order. */
  function MarkersOf(fs: seq<Feature>): (r: seq<Marker>)
    requires forall k :: 0 <= k < |fs| ==> WellFormed(fs[k])
    ensures |r| == |fs|
  {
    seq(|fs|, k requires 0 <= k < |fs| => MarkerOf(fs[k]))
  }

  /** The loop is "keep the renderable features, then map each to its
      marker": surviving features keep their relative order, and with K
      rejected features out of N there are N-K markers and K diagnostics. */
  lemma {:induction false} PlotIsFilterThenMap(features: seq<Feature>)
    ensures Plot(features).markers == MarkersOf(Renderables(features))
    ensures Plot(features).diagnostics == CountRejected(features)
    ensures |Plot(features).markers| == |features| - CountRejected(features)
  {
    if features != [] {
      PlotIsFilterThenMap(features[1..]);
      var rest := Renderables(features[1..]);
      if Renderable(features[0]) {
        assert Renderables(features) == [features[0]] + rest;
        assert MarkersOf([features[0]] + rest) == [MarkerOf(features[0])] + MarkersOf(rest);
      } else {
        assert Renderables(features) == rest;
      }
    }
  }

  /** Every marker comes from a renderable feature of the feed: its
      latitude is that feature's `coordinates[1]`, its longitude
      `coordinates[0]`, its magnitude the feature's `mag`, and its fill
      `getColor` of `coordinates[2]`. */
  lemma {:induction false} EveryMarkerFromAFeature(features: seq<Feature>, j: nat)
    requires j < |Plot(features).markers|
    ensures exists k :: 0 <= k < |features| && Renderable(features[k]) && Plot(features).markers[j] == MarkerOf(features[k])
  {
    var rest := features[1..];
    if Renderable(features[0]) && j == 0 {
      assert Plot(features).markers[0] == MarkerOf(features[0]);
    } else {
      var j' := if Renderable(features[0]) then j - 1 else j;
      assert Plot(features).markers[j] == Plot(rest).markers[j'];
      EveryMarkerFromAFeature(rest, j');
      var k :| 0 <= k < |rest| && Renderable(rest[k]) && Plot(rest).markers[j'] == MarkerOf(rest[k]);
      assert features[k + 1] == rest[k];
    }
  }

  /** Plotting a concatenation plots each part independently: what one
      part contains has no effect on the markers of the other. */
  lemma {:induction false} PlotAppend(a: seq<Feature>, b: seq<Feature>)
    ensures Plot(a + b).markers == Plot(a).markers + Plot(b).markers
    ensures Plot(a + b).diagnostics == Plot(a).diagnostics + Plot(b).diagnostics
  {
    if a == [] {
      assert a + b == b;
    } else {
      assert (a + b)[1..] == a[1..] + b;
      PlotAppend(a[1..], b);
    }
  }

  /** A feature that is not renderable costs one diagnostic and nothing
      else: the features after it are still plotted. */
  lemma BadFeatureIsolated(before: seq<Feature>, bad: Feature, after: seq<Feature>)
    requires !Renderable(bad)
    ensures Plot(before + [bad] + after).markers == Plot(before).markers + Plot(after).markers
    ensures Plot(before + [bad] + after).diagnostics == Plot(before).diagnostics + 1 + Plot(after).diagnostics
  {
    PlotAppend(before, [bad]);
    PlotAppend(before + [bad], after);
    assert Plot([bad]) == Plotted([], 1);
  }

  /** A marker's colour is the colour its depth band has in the legend:
      for a numeric depth `d >= 0` in the legend range of entry `i`, the
      fill is that entry's swatch. */
  lemma MarkerMatchesLegend(f: Feature, i: nat)
    requires WellFormed(f)
    requires i < |TheLegend()|
    requires !IsNaN(At(f.coordinates.value, 2))
    ensures var d := ToNumber(At(f.coordinates.value, 2)).value;
      0.0 <= d ==>
        (MarkerOf(f).fillColor == TheLegend()[i].color
         <==> LegendDepths[i] as real <= d && (i == |LegendDepths| - 1 || d < LegendDepths[i + 1] as real))
  {
    var v := At(f.coordinates.value, 2);
    var d := ToNumber(v).value;
    GetColorTotal(v);
    GetColorTotal(Number(d));
    if 0.0 <= d {
      LegendAgreesWithEncoder(d, i);
    }
  }

  /** What one render pass leaves behind: the markers on the map, the
      per-feature diagnostics, and the fetch-level diagnostics. */
  datatype Pass = Pass(markers: seq<Marker>, plotErrors: nat, fetchErrors: nat)

  /** A render pass over a fetch outcome: `None` when the fetch was rejected
      or the response had no `features` array. A failed fetch places no
      marker and logs one diagnostic; a successful one never logs a fetch
      diagnostic and accounts for every feature once. */
  function RenderPass(response: Option<seq<Feature>>): (r: Pass)
    ensures response.None? ==> r.markers == [] && r.plotErrors == 0 && r.fetchErrors == 1
    ensures response.Some? ==>
      && r.fetchErrors == 0
      && r.plotErrors == CountRejected(response.value)
      && r.markers == MarkersOf(Renderables(response.value))
  {
    match response
    case None => Pass([], 0, 1)
    case Some(features) =>
      PlotIsFilterThenMap(features);
      var p := Plot(features);
      Pass(p.markers, p.diagnostics, 0)
  }

  // ---------------------------------------------------------------------
  // The loop as written: coordinates and magnitude are read before the
  // `try`, so a feature they cannot be read from throws out of the
  // `forEach`; the markers already placed stay on the map and the promise
  // chain's `catch` logs one fetch-level diagnostic.

  /** Progress of the loop as written: `threw` when it stopped on an
      unreadable feature. */
  datatype Loop = Loop(markers: seq<Marker>, diagnostics: nat, threw: bool)

  /** The loop as written: an unreadable feature stops it where it is. */
  function PlotAsWritten(features: seq<Feature>): (r: Loop)
    ensures |r.markers| + r.diagnostics <= |features|
    ensures !r.threw ==> |r.markers| + r.diagnostics == |features|
    ensures r.threw <==> exists k :: 0 <= k < |features| && !WellFormed(features[k])
  {
    if features == [] then Loop([], 0, false)
    else if !WellFormed(features[0]) then Loop([], 0, true)
    else
      var rest := PlotAsWritten(features[1..]);
      if IsNaN(features[0].mag.value) then Loop(rest.markers, rest.diagnostics + 1, rest.threw)
      else Loop([MarkerOf(features[0])] + rest.markers, rest.diagnostics, rest.threw)
  }

  /** The render pass as written: a throw out of the loop is caught by the
      same handler as a failed fetch, so a fetch-level diagnostic is logged
      exactly when the fetch failed or some feature cannot be read. */
  function RenderPassAsWritten(response: Option<seq<Feature>>): (r: Pass)
    ensures r.fetchErrors <= 1
    ensures r.fetchErrors == 1 <==>
      response.None? || exists k :: 0 <= k < |response.value| && !WellFormed(response.value[k])
  {
    match response
    case None => Pass([], 0, 1)
    case Some(features) =>
      var l := PlotAsWritten(features);
      Pass(l.markers, l.diagnostics, if l.threw then 1 else 0)
  }

  /** On a feed whose features can all be read, the loop as written and
      the corrected loop give the same pass. */
  lemma {:induction false} AsWrittenAgreesOnReadableFeeds(features: seq<Feature>)
    requires forall k :: 0 <= k < |features| ==> WellFormed(features[k])
    ensures RenderPassAsWritten(Some(features)) == RenderPass(Some(features))
  {
    AgreesOnReadable(features);
  }

  lemma {:induction false} AgreesOnReadable(features: seq<Feature>)
    requires forall k :: 0 <= k < |features| ==> WellFormed(features[k])
    ensures PlotAsWritten(features) == Loop(Plot(features).markers, Plot(features).diagnostics, false)
  {
    if features != [] {
      AgreesOnReadable(features[1..]);
    }
  }

  /** As written, the first unreadable feature ends the pass: the markers
      of the features before it stay, nothing after it is plotted, and one
      fetch-level diagnostic is logged. */
  lemma {:induction false} AsWrittenStopsAtUnreadable(before: seq<Feature>, bad: Feature, after: seq<Feature>)
    requires forall k :: 0 <= k < |before| ==> WellFormed(before[k])
    requires !WellFormed(bad)
    ensures RenderPassAsWritten(Some(before + [bad] + after))
         == Pass(Plot(before).markers, Plot(before).diagnostics, 1)
  {
    StopsAtUnreadable(before, bad, after);
  }

  lemma {:induction false} StopsAtUnreadable(before: seq<Feature>, bad: Feature, after: seq<Feature>)
    requires forall k :: 0 <= k < |before| ==> WellFormed(before[k])
    requires !WellFormed(bad)
    ensures PlotAsWritten(before + [bad] + after) == Loop(Plot(before).markers, Plot(before).diagnostics, true)
  {
    if before == [] {
      assert before + [bad] + after == [bad] + after;
    } else {
      assert (before + [bad] + after)[1..] == before[1..] + [bad] + after;
      StopsAtUnreadable(before[1..], bad, after);
    }
  }

  /** A feed of two features, the first without geometry: as written no
      marker is placed at all, although the second feature is renderable;
      the corrected pass places the second feature's marker. */
  lemma UnreadableFeatureHidesTheRest()
    ensures var good := Feature(Some([Number(-117.5), Number(35.7), Number(8.2)]), Some(Number(4.0)));
      var feed := [Feature(None, Some(Number(4.0))), good];
      && RenderPassAsWritten(Some(feed)) == Pass([], 0, 1)
      && RenderPass(Some(feed)) == Pass([Marker(Number(35.7), Number(-117.5), Number(4.0), LightGreen)], 1, 0)
  {
    var good := Feature(Some([Number(-117.5), Number(35.7), Number(8.2)]), Some(Number(4.0)));
    var feed := [Feature(None, Some(Number(4.0))), good];
    assert feed[1..] == [good];
    assert Plot([good]).markers == [MarkerOf(good)];
  }
}
