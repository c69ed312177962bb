# Earthquake map visual encoding

A Dafny model of the logic in the earthquake map page (`static/js/logic.js`).
The page fetches a GeoJSON feed of earthquakes and draws one circle marker per event. Each marker is filled with a colour chosen from the event's depth, and a legend explains the colours. The model covers three parts:

- **the depth-to-colour encoder** `getColor`: six depth bands, each
  lower-inclusive, cut at 10, 30, 50, 70 and 90 km, each mapped to one hex colour token (`DepthColor`);
- **the legend data** built in `createLegend`: one (colour, text) entry per lower bound in `[0, 10, 30, 50, 70, 90]`, coloured with `getColor` of that bound (`Legend`);
- **the per-feature render loop** and the fetch outcome around it: read longitude, latitude and depth from `geometry.coordinates` and the magnitude from `properties.mag`, skip a feature whose magnitude fails `isNaN` with a diagnostic, and place one marker per remaining feature in feed order (`Render`).

JavaScript values that can appear where a number is expected are modelled by `JsValues.JsValue`: numbers, NaN, `undefined`, `null` and booleans. Both `isNaN` and `depth < 10` coerce through ToNumber, so the model handles them the same way. As a result, `isNaN(null)` is false, and a depth that reads as `undefined` fails every `<` test of `getColor` and gets the deepest colour.

The source's per-feature skip differs from the intent that each bad record is skipped without stopping the rest. The differing case is a feature whose geometry or properties are missing, because the reads at lines 108-111 sit outside the `try`. `Render.RenderPassAsWritten` models the code as written. `Render.RenderPass` is the corrected pass that the other lemmas are about. See Findings.

## Model

| member | source | states |
|---|---|---|
| DepthColor.GetColorTotal | static/js/logic.js:18-31 | a depth that coerces to NaN gets dark red; a numeric depth gets the colour of its band; negative depths get light green |
| DepthColor.BandIsUnique | static/js/logic.js:19-30 | the six half-open bands partition the reals: a depth lies in band i exactly when i is its band index |
| DepthColor.GetColorIsBandColor | static/js/logic.js:18-31 | `getColor` on a number equals the palette colour of the band the number lies in, where the band index is defined independently by counting the cut points at or below the depth |
| DepthColor.BandBoundaries | static/js/logic.js:19-30 | each cut point (10, 30, 50, 70, 90) already takes the deeper colour; every depth below a cut gets a shallower colour, every depth at or above it a colour at least as deep |
| DepthColor.GetColorMonotone | static/js/logic.js:19-31 | if d1 <= d2 then the band of d1's colour is no deeper than the band of d2's colour |
| DepthColor.CutsAtOrBelowIsPosition | static/js/logic.js:19-30 | in an ascending list of cut points, exactly k of them are at or below d iff d lies between cut k-1 and cut k |
| DepthColor.CutsAtOrBelowMonotone | static/js/logic.js:19-30 | a deeper depth never passes fewer cut points |
| DepthColor.HexInjective | static/js/logic.js:20-30 | distinct colour tokens are written as distinct hex strings |
| Legend.LegendBounds | static/js/logic.js:56 | the legend's six lower bounds are 0 followed by the five band cut points, in ascending order |
| Legend.EntryColor | static/js/logic.js:66-67 | entry i's colour is `getColor(depths[i])`, which is the colour of band i |
| Legend.LegendShape | static/js/logic.js:56-67 | the legend has one entry per band, and its colours are the six palette colours in band order |
| Legend.LegendAgreesWithEncoder | static/js/logic.js:56-68 | for a non-negative depth d, `getColor(d)` equals legend entry i's colour iff depths[i] <= d < depths[i+1] (no upper bound for the last entry) |
| Legend.NegativeDepthUsesFirstEntry | static/js/logic.js:19-20 | negative depths, which no legend range covers, are drawn in the first entry's colour |
| Legend.LegendLabels | static/js/logic.js:68 | entry texts are "0 - 10 km", "10 - 30 km", "30 - 50 km", "50 - 70 km", "70 - 90 km" and "90+ km" |
| Legend.ShowRoundTrip | static/js/logic.js:68 | the decimal text of a bound in a label reads back as that bound and has no leading zero |
| Render.PlotIsFilterThenMap | static/js/logic.js:107-130 | the loop equals "keep the renderable features, then map each to its marker": order is preserved, and N features with K rejected give N-K markers and K diagnostics |
| Render.EveryMarkerFromAFeature | static/js/logic.js:107-127 | every marker comes from a renderable feature: latitude from `coordinates[1]`, longitude from `coordinates[0]`, magnitude from `properties.mag`, fill colour `getColor(coordinates[2])` |
| Render.PlotAppend | static/js/logic.js:107-130 | plotting a concatenation gives the markers and diagnostics of each part, concatenated and summed |
| Render.BadFeatureIsolated | static/js/logic.js:113-130 | a rejected feature adds one diagnostic and nothing else; the features after it are still plotted |
| Render.MarkerMatchesLegend | static/js/logic.js:108-111 | a marker's fill is legend entry i's colour iff its non-negative numeric depth (coordinates[2]) lies in entry i's range |
| Render.RenderPass | static/js/logic.js:104-133 | corrected pass: a failed fetch places no marker and logs one diagnostic; a successful one logs no fetch diagnostic, one diagnostic per rejected feature, and the markers of the renderable features in feed order |
| Render.RenderPassAsWritten | static/js/logic.js:104-133 | pass as written: at most one fetch-level diagnostic, logged exactly when the fetch failed or some feature's geometry or properties cannot be read (the throw from lines 108-111 reaches the `.catch` at 133) |
| Render.AsWrittenAgreesOnReadableFeeds | static/js/logic.js:107-130 | when every feature's coordinates and magnitude can be read, the loop as written and the corrected loop give the same pass |
| Render.AsWrittenStopsAtUnreadable | static/js/logic.js:107-133 | as written, the first feature whose geometry or properties are missing ends the pass: earlier markers stay, later features are not plotted, and one fetch-level diagnostic is logged |
| Render.UnreadableFeatureHidesTheRest | static/js/logic.js:107-111 | on a two-feature feed whose first feature has no geometry, the pass as written places no marker, while the corrected pass places the second feature's marker |
| JsValues.IsNaNExactly | static/js/logic.js:115 | among the modelled values only `undefined` and NaN fail `isNaN`; `null`, booleans and numbers pass |

## Left out

- `getRadius` (`Math.sqrt(magnitude) * 15000`, lines 13-15) is floating-point arithmetic and is not modelled. A marker records the magnitude its radius is computed from. Negative magnitudes pass the `isNaN` check, and `getRadius` gives them a NaN radius. The model places a marker for such a feature. In the page, Leaflet's circle constructor rejects the NaN radius by throwing inside the `try` (lines 120-121), so the `catch` (lines 128-129) logs one per-feature diagnostic and no marker is placed (see the Leaflet line below).
- `createPopup` (lines 35-40) is HTML templating and locale-dependent date formatting, so it is not modelled. A marker carries no popup text.
- Leaflet map, tile layer, legend control, `L.circle`, `bindPopup` and `addTo` (lines 5-10, 44, 97, 120-127) are foreign library calls, so they are not modelled. A marker is a plain record. An error that Leaflet itself throws inside the `try` is not modelled either, for example an invalid latitude/longitude pair or the NaN radius of a negative magnitude. The source would count it as one more per-feature diagnostic.
- D3 SVG construction and styling of the legend (lines 48-54, 60-63, 70-91) is rendering and is not modelled. Only the entries' colours and texts are.
- The `d3.json` fetch and the promise chain (lines 104-105, 133) are network I/O. Their outcome is a parameter: `None` for a rejected fetch or a response without a `features` array.
- The legend is built independently of the fetch (line 101). The model has no page state, so "the legend stays visible after a failed fetch" is not stated.
- Diagnostic message texts (lines 116, 129, 133) are not modelled. Diagnostics are counts.
- Strings, arrays and objects as JavaScript values, and their ToNumber coercions, are not modelled. Examples are a numeric string as a magnitude or `isNaN("abc")`.
- A geometry whose `coordinates` is present but not an array is folded into "reads as undefined at every index".

## Findings

| source | as written | input that shows it | evidently intended | confidence | as-written member | corrected member |
|---|---|---|---|---|---|---|
| static/js/logic.js:107-113 | coordinates and magnitude are read before the `try`, so a feature with null `geometry` or `properties` throws out of the `forEach`; the rest of the feed is not plotted and the error is logged as a fetch failure | a feed `[feature without geometry, valid feature]`: no marker is placed | a malformed feature is skipped with one diagnostic like a NaN magnitude, and the rest of the feed is still plotted | medium, not executed | Render.AsWrittenStopsAtUnreadable | Render.BadFeatureIsolated |
