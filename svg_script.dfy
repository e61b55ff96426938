/**
 * The script embedded in the page that shows the body SVG: a cache of each
 * region's original path fills, the click forwarding, and `setMuscleColor`.
 */
module SvgScript {
  import opened Wrappers
  import opened MuscleGroupMapping

  /** The name of the message channel the page posts taps on. */
  const MessageHandlerName: string := "muscleClicked"

  /** What the page may post: a string, or any other JavaScript value. */
  datatype MessageBody = StringBody(text: string) | OtherBody

  /** A message as the host receives it from the page. */
  datatype ScriptMessage = ScriptMessage(name: string, body: MessageBody)

  /** The region id a message reports as tapped, if it is a tap at all. */
  function TappedRegion(message: ScriptMessage): (svgId: Option<string>)
    ensures svgId.Some? <==> message.name == MessageHandlerName && message.body.StringBody?
  {
    if message.name == MessageHandlerName && message.body.StringBody? then Some(message.body.text) else None
  }

  /** The ids the page wires up when it loads, in the script's own order. */
  const MuscleGroups: seq<string> := [
    "obliques", "quads", "lower_abs", "upper_abs", "biceps",
    "side_delts", "front_delts", "upper_pecs", "rear_delts",
    "lower_pecs", "middle_pecs", "hamstrings", "rhomboids",
    "lower_back", "hip_abductor", "neck", "upper_traps",
    "lower_traps", "forearms", "triceps", "glutes", "calves",
    "lats", "hip_adductor"
  ]

  /** The script's list names exactly the region ids of the translation table. */
  lemma MuscleGroupsAreTableIds()
    ensures (set id | id in MuscleGroups) == SvgToAppMapping.Keys
  {
  }

  /** The colour argument that asks for a region's original look back. */
  const ResetSentinel: string := "__reset__"

  /**
   * One `<path>` of a region: the fill its markup and stylesheet give it,
   * and its inline `style.fill` ("" when the inline property is absent).
   */
  datatype PathFill = PathFill(markupFill: string, inlineFill: string)

  /** What `getComputedStyle(path).fill` reports: the inline fill wins; SVG paints black by default. */
  function ComputedFill(p: PathFill): (fill: string)
    ensures fill != ""
    ensures p.inlineFill != "" ==> fill == p.inlineFill
  {
    if p.inlineFill != "" then p.inlineFill
    else if p.markupFill != "" then p.markupFill
    else "black"
  }

  /** The look of a region: the computed fill of each of its paths. */
  function Look(paths: seq<PathFill>): seq<string>
  {
    seq(|paths|, i requires 0 <= i < |paths| => ComputedFill(paths[i]))
  }

  /** The value cached for one path: its computed fill, with "none" stored as "". */
  function OriginalColor(p: PathFill): (original: string)
    ensures original == "" <==> ComputedFill(p) == "none"
    ensures original != "" ==> original == ComputedFill(p)
  {
    var fill := ComputedFill(p);
    if fill == "none" then "" else fill
  }

  /** `cacheOriginalColors`' array: one cached value per path, in document order. */
  function Snapshot(paths: seq<PathFill>): (cached: seq<string>)
    ensures |cached| == |paths|
    ensures forall i :: 0 <= i < |paths| ==> cached[i] == OriginalColor(paths[i])
  {
    seq(|paths|, i requires 0 <= i < |paths| => OriginalColor(paths[i]))
  }

  /** `defaultColors[muscleId]?.[index]`, with a missing entry read as "". */
  function CachedAt(cached: seq<string>, index: nat): string
  {
    if index < |cached| then cached[index] else ""
  }

  /**
   * One path after `setMuscleColor`: a concrete colour becomes the inline
   * fill; the reset sentinel puts back a non-empty cached value inline, or
   * removes the inline fill when the cached value is empty.
   */
  function RecoloredPath(p: PathFill, original: string, color: string): (q: PathFill)
    ensures q.markupFill == p.markupFill
    ensures color != ResetSentinel ==> q.inlineFill == color
    ensures color == ResetSentinel ==> q.inlineFill == original
  {
    if color == ResetSentinel then
      if |original| > 0 then PathFill(p.markupFill, original) else PathFill(p.markupFill, "")
    else PathFill(p.markupFill, color)
  }

  /** Every path of a region after `setMuscleColor`, path `i` reading cached value `i`. */
  function Recolored(paths: seq<PathFill>, cached: seq<string>, color: string): (result: seq<PathFill>)
    ensures |result| == |paths|
    ensures forall i :: 0 <= i < |paths| ==> result[i] == RecoloredPath(paths[i], CachedAt(cached, i), color)
  {
    seq(|paths|, i requires 0 <= i < |paths| => RecoloredPath(paths[i], CachedAt(cached, i), color))
  }

  /** Two path lists that differ at most in their inline fills. */
  predicate SameMarkup(a: seq<PathFill>, b: seq<PathFill>)
  {
    |a| == |b| && forall i :: 0 <= i < |a| ==> a[i].markupFill == b[i].markupFill
  }

  /** Painting a region with a concrete colour makes every one of its paths show it. */
  lemma PaintCoversRegion(paths: seq<PathFill>, cached: seq<string>, color: string)
    requires color != ResetSentinel && color != ""
    ensures SameMarkup(Recolored(paths, cached, color), paths)
    ensures Look(Recolored(paths, cached, color)) == seq(|paths|, i => color)
  {
  }

  /**
   * A path can get its look back from the cache unless its "none" came from
   * an inline fill: the cache stores "none" as "", and a reset with "" only
   * removes the inline fill.
   */
  predicate Restorable(p: PathFill)
  {
    ComputedFill(p) == "none" ==> p.inlineFill == ""
  }

  /**
   * Resetting a region whose cache was taken from its original paths gives
   * every restorable path its original look back, whatever colours were
   * painted on it in between.
   */
  lemma ResetRestoresLook(original: seq<PathFill>, current: seq<PathFill>)
    requires SameMarkup(current, original)
    requires forall i :: 0 <= i < |original| ==> Restorable(original[i])
    ensures Look(Recolored(current, Snapshot(original), ResetSentinel)) == Look(original)
  {
    var restored := Recolored(current, Snapshot(original), ResetSentinel);
    forall i | 0 <= i < |original| ensures ComputedFill(restored[i]) == ComputedFill(original[i]) {
      assert CachedAt(Snapshot(original), i) == OriginalColor(original[i]);
    }
  }

  /** Recolouring only looks at the markup of the paths it is given. */
  lemma RecoloredIgnoresInline(a: seq<PathFill>, b: seq<PathFill>, cached: seq<string>, color: string)
    requires SameMarkup(a, b)
    ensures Recolored(a, cached, color) == Recolored(b, cached, color)
  {
  }

  /**
   * The `paths.forEach` of `setMuscleColor`: recolours the paths one at a
   * time, path `index` reading cached value `index`.
   */
  method RecolorPaths(paths: seq<PathFill>, cached: seq<string>, color: string) returns (result: seq<PathFill>)
    ensures result == Recolored(paths, cached, color)
  {
    result := paths;
    var index := 0;
    while index < |result|
      invariant 0 <= index <= |result| == |paths|
      invariant forall i :: 0 <= i < index ==> result[i] == RecoloredPath(paths[i], CachedAt(cached, i), color)
      invariant forall i :: index <= i < |result| ==> result[i] == paths[i]
    {
      result := result[index := RecoloredPath(result[index], CachedAt(cached, index), color)];
      index := index + 1;
    }
  }

  /**
   * The state invariant of a page loaded with `loaded`: regions keep their
   * paths and markup; a region is only repainted once its cache exists; and
   * every cache entry holds the region's original colours.
   */
  ghost predicate Consistent(loaded: map<string, seq<PathFill>>, elements: map<string, seq<PathFill>>,
                             cache: map<string, seq<string>>)
  {
    && elements.Keys == loaded.Keys
    && (forall id | id in elements :: SameMarkup(elements[id], loaded[id]))
    && (forall id | id in elements && id !in cache :: elements[id] == loaded[id])
    && (forall id | id in cache :: id in loaded && cache[id] == Snapshot(loaded[id]))
  }

  /** A region as `setMuscleColor` leaves it: its loaded paths recoloured from their original cache. */
  function Painted(original: seq<PathFill>, color: string): (paths: seq<PathFill>)
    ensures SameMarkup(paths, original)
  {
    Recolored(original, Snapshot(original), color)
  }

  /** Caching a region that has no entry yet records its original colours. */
  lemma CachingKeepsConsistent(loaded: map<string, seq<PathFill>>, elements: map<string, seq<PathFill>>,
                               cache: map<string, seq<string>>, id: string)
    requires Consistent(loaded, elements, cache) && id in elements && id !in cache
    ensures Consistent(loaded, elements, cache[id := Snapshot(elements[id])])
  {
  }

  /** Repainting a cached region gives the same paths whatever it showed before. */
  lemma RepaintKeepsConsistent(loaded: map<string, seq<PathFill>>, elements: map<string, seq<PathFill>>,
                               cache: map<string, seq<string>>, id: string, color: string)
    requires Consistent(loaded, elements, cache) && id in cache
    ensures Recolored(elements[id], cache[id], color) == Painted(loaded[id], color)
    ensures Consistent(loaded, elements[id := Painted(loaded[id], color)], cache)
  {
    RecoloredIgnoresInline(elements[id], loaded[id], cache[id], color);
  }

  /** A region painted with a concrete colour shows it on every path. */
  lemma PaintedLook(original: seq<PathFill>, color: string)
    requires color != ResetSentinel && color != ""
    ensures Look(Painted(original, color)) == seq(|original|, i => color)
  {
    PaintCoversRegion(original, Snapshot(original), color);
  }

  /** A region reset after any number of paints shows its original look again. */
  lemma ResetLook(original: seq<PathFill>)
    requires forall i :: 0 <= i < |original| ==> Restorable(original[i])
    ensures Look(Painted(original, ResetSentinel)) == Look(original)
  {
    ResetRestoresLook(original, original);
  }

  /**
   * The loaded page: the region groups the SVG holds (by element id, with
   * their paths in document order), the script's `defaultColors` cache and
   * the ids that got a click listener.
   */
  class SvgDocument {
    var elements: map<string, seq<PathFill>>
    var defaultColors: map<string, seq<string>>
    var listeners: set<string>
    /** The regions as the SVG markup drew them, before any script ran. */
    ghost const loaded: map<string, seq<PathFill>>

    /**
     * Regions keep their paths and markup; a region is only repainted once
     * its cache exists; every cache entry holds the region's original look;
     * listeners sit only on listed ids that exist.
     */
    ghost predicate Valid()
      reads this
    {
      && Consistent(loaded, elements, defaultColors)
      && (forall id | id in listeners :: id in loaded && id in MuscleGroups)
    }

    /**
     * The page script's top level: for every listed id that exists in the
     * SVG, cache its original colours and attach the click listener.
     */
    constructor Load(document: map<string, seq<PathFill>>)
      ensures Valid()
      ensures loaded == document && elements == document
      ensures forall id :: id in defaultColors <==> id in document && id in MuscleGroups
      ensures forall id :: id in listeners <==> id in document && id in MuscleGroups
    {
      loaded := document;
      elements := document;
      defaultColors := map[];
      listeners := {};
      new;
      for k := 0 to |MuscleGroups|
        invariant Valid() && elements == document
        invariant forall id :: id in defaultColors <==> id in document && id in MuscleGroups[..k]
        invariant forall id :: id in listeners <==> id in document && id in MuscleGroups[..k]
      {
        assert MuscleGroups[..k + 1] == MuscleGroups[..k] + [MuscleGroups[k]];
        WireUp(MuscleGroups[k]);
      }
      assert MuscleGroups[..|MuscleGroups|] == MuscleGroups;
    }

    /**
     * The load-time callback for one listed id: a region that exists gets
     * its colours cached and a click listener; a missing one is skipped.
     */
    method WireUp(id: string)
      requires Valid() && elements == loaded && id in MuscleGroups
      modifies this
      ensures Valid() && elements == loaded
      ensures id in elements ==> defaultColors.Keys == old(defaultColors).Keys + {id} && listeners == old(listeners) + {id}
      ensures id !in elements ==> defaultColors == old(defaultColors) && listeners == old(listeners)
    {
      if id in elements {
        CacheOriginalColors(id);
        listeners := listeners + {id};
      }
    }

    /**
     * `cacheOriginalColors`: records the current computed fill of every path
     * of a region that exists (overwriting an older entry); a missing
     * element changes nothing.
     */
    method CacheOriginalColors(muscleId: string)
      modifies this
      ensures elements == old(elements) && listeners == old(listeners)
      ensures muscleId in elements ==> defaultColors == old(defaultColors)[muscleId := Snapshot(elements[muscleId])]
      ensures muscleId !in elements ==> defaultColors == old(defaultColors)
    {
      if muscleId in elements {
        defaultColors := defaultColors[muscleId := Snapshot(elements[muscleId])];
      }
    }

    /**
     * `setMuscleColor`: on a region that exists, caches its colours if no
     * cache entry exists yet, then recolours its paths one by one; a
     * missing element is ignored. Afterwards the region's paths depend only
     * on the loaded markup and the last colour: a concrete colour shows on
     * every path, and the reset sentinel brings back the original look.
     */
    method SetMuscleColor(muscleId: string, color: string)
      requires Valid()
      modifies this
      ensures Valid() && listeners == old(listeners)
      ensures muscleId !in old(elements) ==> elements == old(elements) && defaultColors == old(defaultColors)
      ensures muscleId in old(defaultColors) ==> defaultColors == old(defaultColors)
      ensures muscleId in old(elements) && muscleId !in old(defaultColors) ==>
                defaultColors == old(defaultColors)[muscleId := Snapshot(old(elements)[muscleId])]
      ensures muscleId in old(elements) ==>
                elements == old(elements)[muscleId := Recolored(old(elements)[muscleId], defaultColors[muscleId], color)]
      ensures muscleId in old(elements) ==> elements == old(elements)[muscleId := Painted(loaded[muscleId], color)]
    {
      if muscleId in elements {
        if muscleId !in defaultColors {
          CachingKeepsConsistent(loaded, elements, defaultColors, muscleId);
          CacheOriginalColors(muscleId);
        }
        RepaintKeepsConsistent(loaded, elements, defaultColors, muscleId, color);
        var paths := RecolorPaths(elements[muscleId], defaultColors[muscleId], color);
        elements := elements[muscleId := paths];
      }
    }

    /** The message a click on region `id` posts, if the region has a listener. */
    function Click(id: string): (message: Option<ScriptMessage>)
      reads this
      ensures message.Some? <==> id in listeners
      ensures message.Some? ==> TappedRegion(message.value) == Some(id)
    {
      if id in listeners then Some(ScriptMessage(MessageHandlerName, StringBody(id))) else None
    }
  }

  /** Every tap the page can post names a region id the host's table knows. */
  lemma ClicksNameKnownRegions(doc: SvgDocument, id: string)
    requires doc.Valid() && doc.Click(id).Some?
    ensures TappedRegion(doc.Click(id).value) == Some(id)
    ensures AppMuscleGroup(id).Some?
  {
    MuscleGroupsAreTableIds();
    assert id in MuscleGroups;
  }
}
