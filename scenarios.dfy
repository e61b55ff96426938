/**
 * Whole interactions of the widget: taps followed by the refresh the web
 * view sends, on a page loaded from any SVG.
 */
module Scenarios {
  import opened Wrappers
  import opened MuscleGroupMapping
  import opened SvgScript
  import opened BodyWebView
  import opened Heatmap

  /**
   * Tapping two regions of the same group flips that group twice: the
   * group ends up untoggled, and the refresh resets every region.
   */
  method TapUpperThenLowerPecs() returns (toggled: set<string>, selected: Option<string>, commands: seq<Command>)
    ensures toggled == {} && selected == Some("Chest")
    ensures forall c | c in commands :: c.color == ResetSentinel
    ensures forall id :: id in Targets(commands) <==> id in SvgToAppMapping
  {
    var appToSvg := BuildAppToSvgMapping(SvgToAppMapping);
    var widget := new HeatmapWidget();
    PecsAreChest();
    widget.TapRegion("upper_pecs");
    widget.TapRegion("lower_pecs");
    toggled, selected := widget.toggledMuscles, widget.selectedMuscle;
    commands := UpdateMuscleColors(toggled, appToSvg);
    UniformColors(toggled, SvgToAppMapping, commands);
  }

  /** With "Full Body" toggled the refresh highlights every region, whatever else is toggled. */
  method SelectFullBody(toggled: set<string>) returns (commands: seq<Command>)
    requires FullBody !in toggled
    ensures forall c | c in commands :: c.color == HighlightColor
    ensures forall id :: id in Targets(commands) <==> id in SvgToAppMapping
  {
    var appToSvg := BuildAppToSvgMapping(SvgToAppMapping);
    var widget := new HeatmapWidget();
    widget.toggledMuscles := toggled;
    widget.TapGroup(FullBody);
    commands := UpdateMuscleColors(widget.toggledMuscles, appToSvg);
    UniformColors(widget.toggledMuscles, SvgToAppMapping, commands);
  }

  /**
   * One tap on the page: the region's listener posts its id, the widget
   * flips the region's group, and the refresh repaints the region with the
   * group's new colour.
   */
  method TapOnPage(doc: SvgDocument, widget: HeatmapWidget, appToSvg: map<string, seq<string>>, svgId: string)
    requires doc.Valid() && IsInverse(SvgToAppMapping, appToSvg) && svgId in doc.listeners
    modifies doc, widget
    ensures doc.Valid() && doc.listeners == old(doc.listeners) && svgId in doc.elements
    ensures AppMuscleGroup(svgId).Some?
    ensures widget.toggledMuscles == Toggle(old(widget.toggledMuscles), AppMuscleGroup(svgId).value)
    ensures doc.elements[svgId] == Painted(doc.loaded[svgId], ColorFor(widget.toggledMuscles, AppMuscleGroup(svgId).value))
  {
    ClicksNameKnownRegions(doc, svgId);
    widget.ReceiveMessage(doc.Click(svgId).value);
    UpdateUIView(doc, widget.toggledMuscles, appToSvg);
  }

  /** A region clicked once on a freshly loaded page shows the highlight on every path. */
  method ClickOnce(document: map<string, seq<PathFill>>, svgId: string)
    returns (highlighted: seq<string>, toggled: set<string>)
    requires svgId in document && svgId in MuscleGroups
    ensures highlighted == seq(|document[svgId]|, i => HighlightColor)
    ensures toggled == {SvgToAppMapping[svgId]}
  {
    var appToSvg := BuildAppToSvgMapping(SvgToAppMapping);
    var doc := new SvgDocument.Load(document);
    var widget := new HeatmapWidget();
    TapOnPage(doc, widget, appToSvg, svgId);
    var group := AppMuscleGroup(svgId).value;
    RefreshedLook(document[svgId], widget.toggledMuscles, group);
    highlighted := Look(doc.elements[svgId]);
    toggled := widget.toggledMuscles;
  }

  /**
   * A region clicked twice on a freshly loaded page: its group is toggled
   * and untoggled again, and the region is back to its original look.
   */
  method ClickTwice(document: map<string, seq<PathFill>>, svgId: string)
    returns (restored: seq<string>, toggled: set<string>)
    requires svgId in document && svgId in MuscleGroups
    requires forall i :: 0 <= i < |document[svgId]| ==> Restorable(document[svgId][i])
    ensures restored == Look(document[svgId])
    ensures toggled == {}
  {
    var appToSvg := BuildAppToSvgMapping(SvgToAppMapping);
    var doc := new SvgDocument.Load(document);
    var widget := new HeatmapWidget();
    TapOnPage(doc, widget, appToSvg, svgId);
    TapOnPage(doc, widget, appToSvg, svgId);
    var group := AppMuscleGroup(svgId).value;
    ToggleTwice({}, group);
    RefreshedLook(document[svgId], widget.toggledMuscles, group);
    restored := Look(doc.elements[svgId]);
    toggled := widget.toggledMuscles;
  }
}
