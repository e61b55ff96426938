/**
 * The widget's own state: the set of toggled muscle groups and the group the
 * info panel shows, with the three ways the user changes them (a checklist
 * row, a region tapped in the body picture, "Clear All Selections").
 */
module Heatmap {
  import opened Wrappers
  import opened MuscleGroupMapping
  import opened SvgScript

  /** Flipping one group's membership. */
  function Toggle(muscles: set<string>, muscle: string): (toggled: set<string>)
    ensures muscle in toggled <==> muscle !in muscles
    ensures forall g :: g != muscle ==> (g in toggled <==> g in muscles)
  {
    if muscle in muscles then muscles - {muscle} else muscles + {muscle}
  }

  /** Two flips of the same group give back the original set. */
  lemma ToggleTwice(muscles: set<string>, muscle: string)
    ensures Toggle(Toggle(muscles, muscle), muscle) == muscles
  {
  }

  /** Flips of two different groups commute. */
  lemma TogglesCommute(muscles: set<string>, a: string, b: string)
    ensures Toggle(Toggle(muscles, a), b) == Toggle(Toggle(muscles, b), a)
  {
  }

  /** The (toggledMuscles, selectedMuscle) pair held as SwiftUI state. */
  class HeatmapWidget {
    var toggledMuscles: set<string>
    var selectedMuscle: Option<string>

    /** A freshly mounted widget: nothing toggled, nothing selected. */
    constructor ()
      ensures toggledMuscles == {} && selectedMuscle == None
    {
      toggledMuscles := {};
      selectedMuscle := None;
    }

    /** A checklist row: flip the row's group and show it in the info panel. */
    method TapGroup(muscle: string)
      modifies this
      ensures toggledMuscles == Toggle(old(toggledMuscles), muscle)
      ensures selectedMuscle == Some(muscle)
    {
      if muscle in toggledMuscles {
        toggledMuscles := toggledMuscles - {muscle};
      } else {
        toggledMuscles := toggledMuscles + {muscle};
      }
      selectedMuscle := Some(muscle);
    }

    /**
     * A region tapped in the picture: its group is flipped and selected; a
     * region id the table does not know changes nothing.
     */
    method TapRegion(svgId: string)
      modifies this
      ensures AppMuscleGroup(svgId).None? ==>
                toggledMuscles == old(toggledMuscles) && selectedMuscle == old(selectedMuscle)
      ensures AppMuscleGroup(svgId).Some? ==>
                && toggledMuscles == Toggle(old(toggledMuscles), AppMuscleGroup(svgId).value)
                && selectedMuscle == AppMuscleGroup(svgId)
    {
      var appMuscle := AppMuscleGroup(svgId);
      if appMuscle.Some? {
        TapGroup(appMuscle.value);
      }
    }

    /**
     * The coordinator's message handler: only a string body on the
     * "muscleClicked" channel is a tap; anything else is dropped.
     */
    method ReceiveMessage(message: ScriptMessage)
      modifies this
      ensures TappedRegion(message).None? ==>
                toggledMuscles == old(toggledMuscles) && selectedMuscle == old(selectedMuscle)
      ensures TappedRegion(message).Some? && AppMuscleGroup(TappedRegion(message).value).None? ==>
                toggledMuscles == old(toggledMuscles) && selectedMuscle == old(selectedMuscle)
      ensures TappedRegion(message).Some? && AppMuscleGroup(TappedRegion(message).value).Some? ==>
                var group := AppMuscleGroup(TappedRegion(message).value).value;
                toggledMuscles == Toggle(old(toggledMuscles), group) && selectedMuscle == Some(group)
    {
      if message.name == MessageHandlerName && message.body.StringBody? {
        TapRegion(message.body.text);
      }
    }

    /** "Clear All Selections": empties the set, leaves the info panel's group. */
    method ClearAll()
      modifies this
      ensures toggledMuscles == {}
      ensures selectedMuscle == old(selectedMuscle)
    {
      toggledMuscles := {};
    }
  }
}
