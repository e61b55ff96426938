# Body-Heatmap in Dafny

A model of the interactive body heatmap widget in
`Sources/BodyHeatmap/StandaloneBodyHeatmap.swift`. The widget shows a body
picture (an SVG inside a web view) next to a checklist of muscle groups.

- **Translation table.** A static table maps 24 SVG region ids to 14 app
  muscle groups. Its inverse is built once by a loop, and there are two
  lookups on them.
- **Widget state.** The state is the set of toggled groups plus the group
  shown in the info panel. A checklist row, a tapped region and
  "Clear All Selections" change it.
- **Page script.** The script embedded in the page does three things:
  - it caches each region's original path fills;
  - it posts a message when a region is clicked;
  - it provides `setMuscleColor`, which paints a region or restores it from
    the cache.
- **Refresh.** After every state change the host sends one `setMuscleColor`
  script per region id. A region is highlighted when its group is toggled or
  when "Full Body" is toggled.

Files:

- `wrappers.dfy`: `Option`, for Swift's `T?`.
- `muscle_group_mapping.dfy`: the table and the inverse builder.
  - The inverse builder loop is proved to produce the exact inverse for any
    iteration order.
  - Also here: `svgIds(for:)`, `appMuscleGroup(for:)` and the sorted
    checklist.
- `svg_script.dfy`: the embedded script.
  - A region's paths are `PathFill(markupFill, inlineFill)` values. The
    computed fill is the inline fill if there is one, else the markup fill,
    else SVG's default black.
  - The page itself is the class `SvgDocument`, holding the `defaultColors`
    cache and the click listeners.
- `body_web_view.dfy`: `updateMuscleColors`, the page running the scripts it
  sends, and `updateUIView`.
- `heatmap.dfy`: the widget state as the class `HeatmapWidget`, plus the
  coordinator's message handler.
- `scenarios.dfy`: whole interactions, from tapping to repainting.

Two loops walk unordered collections: the inverse builder walks a
dictionary, and the refresh walks a `Set` of groups (built from the table's
values). Swift leaves both iteration orders unspecified, so both loops pick
their next element with `:|`, and every result is proved for every order.
The inverse table is a `static let` built by the loop. The model passes it
around as a value `appToSvg` that satisfies
`IsInverse(SvgToAppMapping, appToSvg)`, which is what
`BuildAppToSvgMapping` ensures.

The script fills the colour cache in two places. At load, every listed
region that exists is cached (lines 262-270; `SvgDocument.Load`,
`SvgDocument.WireUp`). After that, `setMuscleColor` caches a region only
when it has no entry yet (lines 276-278; `SvgDocument.SetMuscleColor`), so
an entry is never overwritten.

## Model

| member | source | states |
|---|---|---|
| MuscleGroupMapping.BuildAppToSvgMapping | Sources/BodyHeatmap/StandaloneBodyHeatmap.swift:53-60 | For any forward table and any iteration order, the result is its exact inverse. Its keys are the table's values. Each list has no duplicates and holds exactly the ids the table sends to that group. The list lengths add up to the number of ids. |
| MuscleGroupMapping.AppendKeepsPartialInverse | Sources/BodyHeatmap/StandaloneBodyHeatmap.swift:55-58 | One loop step (create an empty list on first sight, then append the id) keeps the visited ids inverted exactly. |
| MuscleGroupMapping.CompletePartialInverse | Sources/BodyHeatmap/StandaloneBodyHeatmap.swift:53-60 | Once every id has been visited, the partial inverse is the inverse. |
| MuscleGroupMapping.InverseTotalLength | Sources/BodyHeatmap/StandaloneBodyHeatmap.swift:42-60 | In any exact inverse the list lengths sum to the size of the forward table: no id is lost or doubled. |
| MuscleGroupMapping.TotalLengthListed | Sources/BodyHeatmap/StandaloneBodyHeatmap.swift:53-60 | For disjoint, duplicate-free lists, the summed length equals the number of distinct listed ids. |
| MuscleGroupMapping.InverseListsDisjoint | Sources/BodyHeatmap/StandaloneBodyHeatmap.swift:53-60 | No region id is in the lists of two groups. |
| MuscleGroupMapping.EveryGroupHasRegions | Sources/BodyHeatmap/StandaloneBodyHeatmap.swift:53-60 | Every group of the table has a non-empty list in the inverse. |
| MuscleGroupMapping.SvgIds | Sources/BodyHeatmap/StandaloneBodyHeatmap.swift:62-64 | Returns the empty list for a group the table does not know. The list has no duplicates. An id is in it exactly when `AppMuscleGroup` maps that id to the group (the round trip). |
| MuscleGroupMapping.AppMuscleGroup | Sources/BodyHeatmap/StandaloneBodyHeatmap.swift:66-68 | Returns nil exactly for ids outside the table; any group it returns is one of the table's groups. |
| MuscleGroupMapping.TableGroups | Sources/BodyHeatmap/StandaloneBodyHeatmap.swift:42-51 | The table's groups are exactly the 14 listed ones, "Full Body" among them. |
| MuscleGroupMapping.TableValuesAreGroups | Sources/BodyHeatmap/StandaloneBodyHeatmap.swift:42-51 | Every value of the table is one of the 14 groups. |
| MuscleGroupMapping.PecsAreChest | Sources/BodyHeatmap/StandaloneBodyHeatmap.swift:43 | The three pectoral regions belong to "Chest". |
| MuscleGroupMapping.AllMuscles | Sources/BodyHeatmap/StandaloneBodyHeatmap.swift:133 | The checklist rows are exactly the table's groups, in strictly ascending string order, so each appears once. |
| Heatmap.Toggle | Sources/BodyHeatmap/StandaloneBodyHeatmap.swift:138-142 | Flips the membership of one group and leaves every other group as it was. |
| Heatmap.ToggleTwice | Sources/BodyHeatmap/StandaloneBodyHeatmap.swift:138-142 | Flipping the same group twice gives back the original set. |
| Heatmap.TogglesCommute | Sources/BodyHeatmap/StandaloneBodyHeatmap.swift:138-142 | Flips of different groups commute. |
| Heatmap.HeatmapWidget.constructor | Sources/BodyHeatmap/StandaloneBodyHeatmap.swift:73-74 | A new widget has nothing toggled and nothing selected. |
| Heatmap.HeatmapWidget.TapGroup | Sources/BodyHeatmap/StandaloneBodyHeatmap.swift:137-143 | A checklist tap flips the row's group and selects it. |
| Heatmap.HeatmapWidget.TapRegion | Sources/BodyHeatmap/StandaloneBodyHeatmap.swift:328-336 | A region tap flips and selects the region's group. An id unknown to the table changes nothing. |
| Heatmap.HeatmapWidget.ReceiveMessage | Sources/BodyHeatmap/StandaloneBodyHeatmap.swift:326-338 | Only a string body on the "muscleClicked" channel is a tap. Any other message, or an unknown id, leaves the state unchanged. |
| Heatmap.HeatmapWidget.ClearAll | Sources/BodyHeatmap/StandaloneBodyHeatmap.swift:120-122 | Empties the toggled set and leaves the selected group. |
| SvgScript.TappedRegion | Sources/BodyHeatmap/StandaloneBodyHeatmap.swift:327 | A message names a tapped region exactly when it is on the "muscleClicked" channel and its body is a string. |
| SvgScript.MuscleGroupsAreTableIds | Sources/BodyHeatmap/StandaloneBodyHeatmap.swift:241-248 | The script's id list names exactly the table's region ids. |
| SvgScript.OriginalColor | Sources/BodyHeatmap/StandaloneBodyHeatmap.swift:257-258 | The cached value is "" exactly when the computed fill is "none", and otherwise is the computed fill. |
| SvgScript.Snapshot | Sources/BodyHeatmap/StandaloneBodyHeatmap.swift:255-259 | The cache holds one value per path, in document order. |
| SvgScript.RecoloredPath | Sources/BodyHeatmap/StandaloneBodyHeatmap.swift:280-289 | A concrete colour becomes the inline fill. A reset puts back the cached value, with an empty value removing the inline fill. The markup fill never changes. |
| SvgScript.Recolored | Sources/BodyHeatmap/StandaloneBodyHeatmap.swift:279-290 | Every path is recoloured, and path i reads cached value i (a missing entry reads as ""). |
| SvgScript.RecolorPaths | Sources/BodyHeatmap/StandaloneBodyHeatmap.swift:279-290 | The `forEach` loop over the paths computes `Recolored`. |
| SvgScript.PaintCoversRegion | Sources/BodyHeatmap/StandaloneBodyHeatmap.swift:287-289 | Painting with a concrete colour makes every path show that colour and keeps the markup. |
| SvgScript.ResetRestoresLook | Sources/BodyHeatmap/StandaloneBodyHeatmap.swift:280-286 | A reset after any paints gives every restorable path the computed fill it was loaded with. |
| SvgScript.RecoloredIgnoresInline | Sources/BodyHeatmap/StandaloneBodyHeatmap.swift:279-290 | The result of recolouring does not depend on the inline fills the region had before. |
| SvgScript.Painted | Sources/BodyHeatmap/StandaloneBodyHeatmap.swift:272-292 | A region as `setMuscleColor` leaves it keeps the markup of its loaded paths. |
| SvgScript.CachingKeepsConsistent | Sources/BodyHeatmap/StandaloneBodyHeatmap.swift:276-278 | Caching a region that has no cache entry records its original colours and keeps the page invariant. |
| SvgScript.RepaintKeepsConsistent | Sources/BodyHeatmap/StandaloneBodyHeatmap.swift:279-290 | Repainting a cached region gives the same paths whatever it showed before, and keeps the page invariant. |
| SvgScript.PaintedLook | Sources/BodyHeatmap/StandaloneBodyHeatmap.swift:287-289 | A region painted with a concrete colour shows that colour on every path. |
| SvgScript.ResetLook | Sources/BodyHeatmap/StandaloneBodyHeatmap.swift:280-286 | A region reset after any paints shows its loaded look on every restorable path. |
| SvgScript.SvgDocument.Load | Sources/BodyHeatmap/StandaloneBodyHeatmap.swift:241-270 | After load, exactly the listed ids that exist are cached (with their original colours) and have a click listener. The page invariant holds. |
| SvgScript.SvgDocument.WireUp | Sources/BodyHeatmap/StandaloneBodyHeatmap.swift:262-270 | A listed id that exists gets a cache entry and a listener. A missing one is skipped. |
| SvgScript.SvgDocument.CacheOriginalColors | Sources/BodyHeatmap/StandaloneBodyHeatmap.swift:252-260 | Records (or overwrites) the snapshot of an existing region. A missing element changes nothing. |
| SvgScript.SvgDocument.SetMuscleColor | Sources/BodyHeatmap/StandaloneBodyHeatmap.swift:272-292 | A missing element is a no-op. An existing cache entry is never overwritten, and a missing one is filled first. The region's paths become `Painted` from the loaded markup with the given colour. The page invariant holds. |
| SvgScript.SvgDocument.Click | Sources/BodyHeatmap/StandaloneBodyHeatmap.swift:264-268 | A click posts a message exactly for ids with a listener, and the host reads that message back as a tap on the same id. |
| SvgScript.ClicksNameKnownRegions | Sources/BodyHeatmap/StandaloneBodyHeatmap.swift:262-270 | Every tap the page can post names a region id the host's table knows. |
| BodyWebView.ColorFor | Sources/BodyHeatmap/StandaloneBodyHeatmap.swift:305-310 | Sends the highlight colour exactly when the group or "Full Body" is toggled, and the reset sentinel otherwise. |
| BodyWebView.UpdateMuscleColors | Sources/BodyHeatmap/StandaloneBodyHeatmap.swift:303-317 | For any iteration order, every region id of the table gets exactly one script, and no other id gets one. Each script carries its group's colour. |
| BodyWebView.AppendGroup | Sources/BodyHeatmap/StandaloneBodyHeatmap.swift:311-315 | The inner loop adds one script per id of the group, without repeating an id already addressed. |
| BodyWebView.UniformColors | Sources/BodyHeatmap/StandaloneBodyHeatmap.swift:304-310 | With nothing toggled every script is a reset; with "Full Body" toggled every script is a highlight. |
| BodyWebView.LastColor | Sources/BodyHeatmap/StandaloneBodyHeatmap.swift:311-315 | A region has a last colour exactly when some script addresses it, and that colour is one a script sent to it. |
| BodyWebView.RefreshColors | Sources/BodyHeatmap/StandaloneBodyHeatmap.swift:303-317 | Under a refresh batch, each table region's last colour is its group's colour, and other ids get none. |
| BodyWebView.Repainted | Sources/BodyHeatmap/StandaloneBodyHeatmap.swift:272-292 | Running a batch of scripts keeps the set of regions. |
| BodyWebView.RepaintedRegion | Sources/BodyHeatmap/StandaloneBodyHeatmap.swift:272-292 | After a batch, each region shows the last colour sent to it, or is unchanged if no script addressed it. |
| BodyWebView.EvaluateScripts | Sources/BodyHeatmap/StandaloneBodyHeatmap.swift:313-314 | Running the scripts in order leaves each addressed region painted with its last colour and every other region unchanged. |
| BodyWebView.UpdateUIView | Sources/BodyHeatmap/StandaloneBodyHeatmap.swift:204-206 | After a refresh, every table region is painted with its group's colour and other regions are untouched. |
| BodyWebView.RefreshedLook | Sources/BodyHeatmap/StandaloneBodyHeatmap.swift:303-317 | A refreshed region shows the highlight on every path when its group is highlighted. Otherwise every restorable path shows its loaded colour. |
| Scenarios.TapUpperThenLowerPecs | Sources/BodyHeatmap/StandaloneBodyHeatmap.swift:326-338 | Tapping upper_pecs then lower_pecs flips "Chest" twice: nothing is toggled, "Chest" is selected, and every region is reset. |
| Scenarios.SelectFullBody | Sources/BodyHeatmap/StandaloneBodyHeatmap.swift:303-317 | Toggling "Full Body" highlights every region of the table, whatever else is toggled. |
| Scenarios.TapOnPage | Sources/BodyHeatmap/StandaloneBodyHeatmap.swift:262-270 | A click on a region flips its group and repaints the region with the group's new colour. |
| Scenarios.ClickOnce | Sources/BodyHeatmap/StandaloneBodyHeatmap.swift:326-338 | One click on a freshly loaded page highlights every path of the region and toggles only its group. |
| Scenarios.ClickTwice | Sources/BodyHeatmap/StandaloneBodyHeatmap.swift:326-338 | A second click untoggles the group and gives the region its loaded look back. |

## Left out

- `MuscleGroupStats` (`intensity`, `color`; lines 10-39): floating-point percentages mapped to SwiftUI colours. Nothing else in the widget uses them.
- SwiftUI layout: the title, the grid, the info panel's "Selected"/"Not Selected" label, and the visibility of the clear button (the button is only shown when the set is non-empty, and clearing an empty set changes nothing anyway).
- WebKit plumbing: creating the web view, loading the bundled SVG file (its failure path returns without a page), the HTML shell and CSS, and registering the message handler. The page is a parameter: the map from element id to paths given to `SvgDocument.Load`.
- The `DispatchQueue.main.async` hop in the message handler: the model applies the state change at once.
- Asynchronous script evaluation: a script evaluated before the page has loaded does nothing in the browser. The model runs scripts only on a loaded page.
- DOM details: `querySelectorAll('path')` (a region's paths are a given sequence); CSS colour parsing (any non-empty string is taken as a colour); and the computed style's colour normalisation (the cache stores the computed string, and reset writes that same string back).
- SvgScript.ResetRestoresLook: proved only for paths that are `Restorable`. A path whose "none" fill comes from its own inline style is cached as "". A reset then only removes the inline style, so the markup fill shows instead. Whether such paths exist depends on the bundled SVG file, which is not part of this model.
- MuscleGroupMapping.BuildAppToSvgMapping: the sum of list lengths is stated as the size of the forward table, not as the literal 24.
- `Package.swift` and the `#Preview` block.
