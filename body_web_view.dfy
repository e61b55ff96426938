/**
 * The host side of the body picture: after every state change the web view
 * sends one `setMuscleColor` script per region id, highlighting the regions
 * of toggled groups (all of them while "Full Body" is toggled) and
 * resetting the others, and the page runs those scripts in order.
 */
module BodyWebView {
  import opened Wrappers
  import opened MuscleGroupMapping
  import opened SvgScript

  /** The translucent blue of a highlighted region. */
  const HighlightColor: string := "rgba(0, 122, 255, 0.7)"

  /** One evaluated script `setMuscleColor('<svgId>', '<color>');`. */
  datatype Command = SetColor(svgId: string, color: string)

  /** A group is shown highlighted when it is toggled or "Full Body" is. */
  predicate IsHighlighted(toggled: set<string>, group: string)
  {
    FullBody in toggled || group in toggled
  }

  /** The colour argument sent for the regions of `group`. */
  function ColorFor(toggled: set<string>, group: string): (color: string)
    ensures color == HighlightColor <==> IsHighlighted(toggled, group)
    ensures color == ResetSentinel <==> !IsHighlighted(toggled, group)
  {
    if IsHighlighted(toggled, group) then HighlightColor else ResetSentinel
  }

  /** The region ids a batch of scripts addresses. */
  function Targets(commands: seq<Command>): set<string>
  {
    set c | c in commands :: c.svgId
  }

  /** No region id is addressed twice. */
  predicate DistinctTargets(commands: seq<Command>)
  {
    forall i, j :: 0 <= i < j < |commands| ==> commands[i].svgId != commands[j].svgId
  }

  /**
   * `updateMuscleColors`: for every group of the table, in the unspecified
   * order of the `Set` of groups, one script per region id of the group. Every region
   * id is addressed exactly once, with the highlight colour when its group
   * is highlighted and the reset sentinel otherwise.
   */
  method UpdateMuscleColors(toggled: set<string>, appToSvg: map<string, seq<string>>) returns (commands: seq<Command>)
    requires IsInverse(SvgToAppMapping, appToSvg)
    ensures DistinctTargets(commands)
    ensures forall id :: id in Targets(commands) <==> id in SvgToAppMapping
    ensures forall c | c in commands :: c.svgId in SvgToAppMapping && c.color == ColorFor(toggled, SvgToAppMapping[c.svgId])
  {
    var allMuscleGroups := SvgToAppMapping.Values;
    var isFullBodySelected := FullBody in toggled;
    commands := [];
    var pending := allMuscleGroups;
    ghost var done: set<string> := {};
    while pending != {}
      invariant done !! pending && done + pending == allMuscleGroups
      invariant DistinctTargets(commands)
      invariant forall id :: id in Targets(commands) <==> id in SvgToAppMapping && SvgToAppMapping[id] in done
      invariant forall c | c in commands :: c.svgId in SvgToAppMapping && c.color == ColorFor(toggled, SvgToAppMapping[c.svgId])
      decreases pending
    {
      var appMuscle :| appMuscle in pending;
      var isToggled := isFullBodySelected || appMuscle in toggled;
      var color := if isToggled then HighlightColor else ResetSentinel;
      var svgIds := SvgIds(appToSvg, appMuscle);
      commands := AppendGroup(commands, svgIds, color, done, appMuscle, toggled);
      pending := pending - {appMuscle};
      done := done + {appMuscle};
    }
  }

  /**
   * The inner loop of `updateMuscleColors`: one script per id of one group,
   * appended in list order after the scripts for the groups in `done`.
   */
  method AppendGroup(prefix: seq<Command>, svgIds: seq<string>, color: string,
                     ghost done: set<string>, ghost group: string, ghost toggled: set<string>)
    returns (commands: seq<Command>)
    requires group !in done && color == ColorFor(toggled, group)
    requires NoDuplicates(svgIds)
    requires forall s :: s in svgIds <==> AppMuscleGroup(s) == Some(group)
    requires DistinctTargets(prefix)
    requires forall id :: id in Targets(prefix) <==> id in SvgToAppMapping && SvgToAppMapping[id] in done
    requires forall c | c in prefix :: c.svgId in SvgToAppMapping && c.color == ColorFor(toggled, SvgToAppMapping[c.svgId])
    ensures DistinctTargets(commands)
    ensures forall id :: id in Targets(commands) <==> id in SvgToAppMapping && SvgToAppMapping[id] in done + {group}
    ensures forall c | c in commands :: c.svgId in SvgToAppMapping && c.color == ColorFor(toggled, SvgToAppMapping[c.svgId])
  {
    commands := prefix;
    for k := 0 to |svgIds|
      invariant DistinctTargets(commands)
      invariant forall id :: id in Targets(commands) <==>
                  (id in SvgToAppMapping && SvgToAppMapping[id] in done) || id in svgIds[..k]
      invariant forall c | c in commands :: c.svgId in SvgToAppMapping && c.color == ColorFor(toggled, SvgToAppMapping[c.svgId])
    {
      var svgId := svgIds[k];
      assert AppMuscleGroup(svgId) == Some(group);
      assert svgId !in svgIds[..k] by {
        forall i | 0 <= i < k ensures svgIds[..k][i] != svgId {
          assert svgIds[i] != svgIds[k];
        }
      }
      assert svgId !in Targets(commands);
      assert svgIds[..k + 1] == svgIds[..k] + [svgId];
      commands := commands + [SetColor(svgId, color)];
    }
    assert svgIds[..|svgIds|] == svgIds;
  }

  /**
   * With nothing toggled every script is a reset; with "Full Body" toggled
   * every script is a highlight.
   */
  lemma UniformColors(toggled: set<string>, table: map<string, string>, commands: seq<Command>)
    requires forall c | c in commands :: c.svgId in table && c.color == ColorFor(toggled, table[c.svgId])
    ensures toggled == {} ==> forall c | c in commands :: c.color == ResetSentinel
    ensures FullBody in toggled ==> forall c | c in commands :: c.color == HighlightColor
  {
  }

  /** The colour of the last script of a batch that addresses `id`, if any does. */
  function LastColor(commands: seq<Command>, id: string): (color: Option<string>)
    ensures color.None? <==> id !in Targets(commands)
    ensures color.Some? ==> exists c | c in commands :: c.svgId == id && c.color == color.value
    decreases |commands|
  {
    if commands == [] then None
    else
      var init := commands[..|commands| - 1];
      var last := commands[|commands| - 1];
      assert commands == init + [last];
      if last.svgId == id then Some(last.color) else LastColor(init, id)
  }

  /** The regions after a batch of scripts ran in order on regions `before`. */
  function Repainted(loaded: map<string, seq<PathFill>>, before: map<string, seq<PathFill>>,
                     commands: seq<Command>): (after: map<string, seq<PathFill>>)
    requires before.Keys <= loaded.Keys
    ensures after.Keys == before.Keys
    decreases |commands|
  {
    if commands == [] then before
    else
      var init := commands[..|commands| - 1];
      var last := commands[|commands| - 1];
      var earlier := Repainted(loaded, before, init);
      if last.svgId in earlier then earlier[last.svgId := Painted(loaded[last.svgId], last.color)] else earlier
  }

  /** After a batch, each region shows the last colour sent to it, or is as it was. */
  lemma {:induction false} RepaintedRegion(loaded: map<string, seq<PathFill>>, before: map<string, seq<PathFill>>,
                                           commands: seq<Command>, id: string)
    requires before.Keys <= loaded.Keys && id in before
    ensures Repainted(loaded, before, commands)[id] ==
              if LastColor(commands, id).Some? then Painted(loaded[id], LastColor(commands, id).value) else before[id]
    decreases |commands|
  {
    if commands != [] {
      RepaintedRegion(loaded, before, commands[..|commands| - 1], id);
    }
  }

  /** Under a refresh batch, the last colour of a region is its group's colour. */
  lemma {:induction false} RefreshColors(toggled: set<string>, commands: seq<Command>, id: string)
    requires forall id :: id in Targets(commands) <==> id in SvgToAppMapping
    requires forall c | c in commands :: c.svgId in SvgToAppMapping && c.color == ColorFor(toggled, SvgToAppMapping[c.svgId])
    ensures id in SvgToAppMapping ==> LastColor(commands, id) == Some(ColorFor(toggled, SvgToAppMapping[id]))
    ensures id !in SvgToAppMapping ==> LastColor(commands, id) == None
  {
    if id in SvgToAppMapping {
      var c :| c in commands && c.svgId == id && c.color == LastColor(commands, id).value;
    }
  }

  /**
   * The page running a batch of scripts in order: each region that a
   * script addresses ends up painted with the last colour sent to it,
   * every other region keeps its paths.
   */
  method EvaluateScripts(doc: SvgDocument, commands: seq<Command>)
    requires doc.Valid()
    modifies doc
    ensures doc.Valid() && doc.listeners == old(doc.listeners)
    ensures doc.elements == Repainted(doc.loaded, old(doc.elements), commands)
    ensures forall id | id in doc.elements ::
              doc.elements[id] == if LastColor(commands, id).Some?
                                  then Painted(doc.loaded[id], LastColor(commands, id).value)
                                  else old(doc.elements[id])
  {
    for k := 0 to |commands|
      invariant doc.Valid() && doc.listeners == old(doc.listeners)
      invariant doc.elements == Repainted(doc.loaded, old(doc.elements), commands[..k])
    {
      assert commands[..k + 1][..k] == commands[..k];
      doc.SetMuscleColor(commands[k].svgId, commands[k].color);
    }
    assert commands[..|commands|] == commands;
    forall id | id in doc.elements
      ensures doc.elements[id] == if LastColor(commands, id).Some?
                                  then Painted(doc.loaded[id], LastColor(commands, id).value)
                                  else old(doc.elements[id])
    {
      RepaintedRegion(doc.loaded, old(doc.elements), commands, id);
    }
  }

  /**
   * `updateUIView`: after a state change the host sends the refresh batch.
   * Every region of the table then shows its group's colour, painted over
   * the loaded markup; regions outside the table are left alone.
   */
  method UpdateUIView(doc: SvgDocument, toggled: set<string>, appToSvg: map<string, seq<string>>)
    requires doc.Valid() && IsInverse(SvgToAppMapping, appToSvg)
    modifies doc
    ensures doc.Valid() && doc.listeners == old(doc.listeners)
    ensures doc.elements.Keys == old(doc.elements).Keys
    ensures forall id | id in doc.elements ::
              doc.elements[id] == if id in SvgToAppMapping
                                  then Painted(doc.loaded[id], ColorFor(toggled, SvgToAppMapping[id]))
                                  else old(doc.elements[id])
  {
    var commands := UpdateMuscleColors(toggled, appToSvg);
    EvaluateScripts(doc, commands);
    forall id | id in doc.elements
      ensures LastColor(commands, id) == if id in SvgToAppMapping then Some(ColorFor(toggled, SvgToAppMapping[id])) else None
    {
      RefreshColors(toggled, commands, id);
    }
  }

  /**
   * What a refreshed region looks like: every path shows the highlight
   * when its group is highlighted; otherwise each restorable path is back
   * to the colour the SVG drew it with.
   */
  lemma RefreshedLook(original: seq<PathFill>, toggled: set<string>, group: string)
    ensures IsHighlighted(toggled, group) ==>
              Look(Painted(original, ColorFor(toggled, group))) == seq(|original|, i => HighlightColor)
    ensures !IsHighlighted(toggled, group) && (forall i :: 0 <= i < |original| ==> Restorable(original[i])) ==>
              Look(Painted(original, ColorFor(toggled, group))) == Look(original)
  {
    if IsHighlighted(toggled, group) {
      PaintedLook(original, HighlightColor);
    } else if forall i :: 0 <= i < |original| ==> Restorable(original[i]) {
      ResetLook(original);
    }
  }
}
