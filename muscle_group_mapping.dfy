/**
 * The static translation table between the ids of the regions drawn in the
 * body SVG and the muscle-group names the host app uses, its inverse (built
 * once by a loop over the forward table), and the two lookups on them.
 */
module MuscleGroupMapping {
  import opened Wrappers

  /** Many-to-one: every SVG region id belongs to exactly one app muscle group. */
  const SvgToAppMapping: map<string, string> := map[
    "upper_pecs" := "Chest", "middle_pecs" := "Chest", "lower_pecs" := "Chest",
    "upper_traps" := "Upper Back", "lower_traps" := "Upper Back", "rhomboids" := "Upper Back", "lats" := "Upper Back",
    "lower_back" := "Lower Back",
    "front_delts" := "Shoulders", "side_delts" := "Shoulders", "rear_delts" := "Shoulders",
    "biceps" := "Biceps", "triceps" := "Triceps", "forearms" := "Forearms",
    "upper_abs" := "Abs", "lower_abs" := "Abs", "obliques" := "Core",
    "quads" := "Quads", "hamstrings" := "Hamstrings", "glutes" := "Glutes", "calves" := "Calves",
    "hip_adductor" := "Quads", "hip_abductor" := "Glutes", "neck" := "Full Body"
  ]

  /** The group whose selection highlights every region. */
  const FullBody: string := "Full Body"

  predicate NoDuplicates(s: seq<string>)
  {
    forall i, j :: 0 <= i < j < |s| ==> s[i] != s[j]
  }

  /**
   * `inv` lists, for every group that occurs as a value of `forward`, exactly
   * the ids `forward` sends to it, each once; it has no other keys.
   */
  ghost predicate IsInverse(forward: map<string, string>, inv: map<string, seq<string>>)
  {
    && inv.Keys == forward.Values
    && (forall g | g in inv :: NoDuplicates(inv[g]))
    && (forall g, s | g in inv && s in inv[g] :: s in forward && forward[s] == g)
    && (forall s | s in forward :: forward[s] in inv && s in inv[forward[s]])
  }

  /** Sum of the lengths of all lists of a group-to-ids table. */
  ghost function TotalLength(m: map<string, seq<string>>): nat
    decreases |m|
  {
    if m == map[] then 0
    else
      var g :| g in m;
      assert |m - {g}| < |m| by { assert (m - {g}).Keys < m.Keys; }
      |m[g]| + TotalLength(m - {g})
  }

  /** The sum does not depend on which key is taken out first. */
  lemma {:induction false} TotalLengthPick(m: map<string, seq<string>>, g: string)
    requires g in m
    ensures TotalLength(m) == |m[g]| + TotalLength(m - {g})
    decreases |m|
  {
    var h :| h in m && TotalLength(m) == |m[h]| + TotalLength(m - {h});
    if h != g {
      assert (m - {h}).Keys < m.Keys;
      assert (m - {g}).Keys < m.Keys;
      TotalLengthPick(m - {h}, g);
      TotalLengthPick(m - {g}, h);
      assert m - {h} - {g} == m - {g} - {h};
    }
  }

  /**
   * `mapping` is the inverse of `forward` restricted to the ids in `done`:
   * the invariant of the initialiser's loop once it has visited `done`.
   */
  ghost predicate PartialInverse(forward: map<string, string>, done: set<string>, mapping: map<string, seq<string>>)
  {
    && done <= forward.Keys
    && (forall g | g in mapping :: |mapping[g]| > 0 && NoDuplicates(mapping[g]))
    && (forall g, s | g in mapping && s in mapping[g] :: s in done && forward[s] == g)
    && (forall s | s in done :: forward[s] in mapping && s in mapping[forward[s]])
  }

  /**
   * The initialiser's loop body: a group seen for the first time gets an
   * empty list, then the id is appended to the group's list.
   */
  function AppendId(mapping: map<string, seq<string>>, group: string, svgId: string): map<string, seq<string>>
  {
    mapping[group := (if group in mapping then mapping[group] else []) + [svgId]]
  }

  /** Appending keeps every list non-empty and free of duplicates. */
  lemma AppendKeepsListsDistinct(forward: map<string, string>, done: set<string>,
                                 mapping: map<string, seq<string>>, svgId: string)
    requires PartialInverse(forward, done, mapping)
    requires svgId in forward && svgId !in done
    ensures var next := AppendId(mapping, forward[svgId], svgId);
            forall g | g in next :: |next[g]| > 0 && NoDuplicates(next[g])
  {
    var g := forward[svgId];
    var ids := if g in mapping then mapping[g] else [];
    forall i | 0 <= i < |ids| ensures ids[i] != svgId {
      assert ids[i] in mapping[g];
    }
    assert NoDuplicates(ids + [svgId]);
  }

  /** After appending, every listed id is visited and belongs to its list's group. */
  lemma AppendKeepsListsSound(forward: map<string, string>, done: set<string>,
                              mapping: map<string, seq<string>>, svgId: string)
    requires PartialInverse(forward, done, mapping)
    requires svgId in forward && svgId !in done
    ensures var next := AppendId(mapping, forward[svgId], svgId);
            forall h, s | h in next && s in next[h] :: s in done + {svgId} && forward[s] == h
  {
    var g := forward[svgId];
    var ids := if g in mapping then mapping[g] else [];
    var next := AppendId(mapping, g, svgId);
    forall h, s | h in next && s in next[h] ensures s in done + {svgId} && forward[s] == h {
      if h == g && s !in ids {
        assert s == svgId;
      }
    }
  }

  /** After appending, every visited id is in its group's list. */
  lemma AppendKeepsListsComplete(forward: map<string, string>, done: set<string>,
                                 mapping: map<string, seq<string>>, svgId: string)
    requires PartialInverse(forward, done, mapping)
    requires svgId in forward && svgId !in done
    ensures var next := AppendId(mapping, forward[svgId], svgId);
            forall s | s in done + {svgId} :: forward[s] in next && s in next[forward[s]]
  {
    var g := forward[svgId];
    var ids := if g in mapping then mapping[g] else [];
    var next := AppendId(mapping, g, svgId);
    forall s | s in done + {svgId} ensures forward[s] in next && s in next[forward[s]] {
      if s != svgId && forward[s] == g {
        assert s in ids;
      }
    }
  }

  /** One iteration of the initialiser's loop keeps the invariant. */
  lemma AppendKeepsPartialInverse(forward: map<string, string>, done: set<string>,
                                  mapping: map<string, seq<string>>, svgId: string)
    requires PartialInverse(forward, done, mapping)
    requires svgId in forward && svgId !in done
    ensures PartialInverse(forward, done + {svgId}, AppendId(mapping, forward[svgId], svgId))
  {
    AppendKeepsListsDistinct(forward, done, mapping, svgId);
    AppendKeepsListsSound(forward, done, mapping, svgId);
    AppendKeepsListsComplete(forward, done, mapping, svgId);
  }

  /** A partial inverse that has visited every id is the inverse. */
  lemma CompletePartialInverse(forward: map<string, string>, mapping: map<string, seq<string>>)
    requires PartialInverse(forward, forward.Keys, mapping)
    ensures IsInverse(forward, mapping)
  {
    forall v | v in forward.Values ensures v in mapping {
      var s :| s in forward && forward[s] == v;
    }
    forall g | g in mapping ensures g in forward.Values {
      var s := mapping[g][0];
      assert s in mapping[g];
      assert forward[s] in forward.Values;
    }
  }

  /**
   * The static initialiser of `appToSvgMapping`: walks the forward table in
   * Swift's unspecified dictionary order, creating a group's list on first
   * sight and appending each id to it. Whatever the order, the result is the
   * exact inverse and the list lengths add up to the number of region ids.
   */
  method BuildAppToSvgMapping(forward: map<string, string>) returns (mapping: map<string, seq<string>>)
    ensures IsInverse(forward, mapping)
    ensures TotalLength(mapping) == |forward|
  {
    mapping := map[];
    var pending := forward.Keys;
    ghost var done: set<string> := {};
    while pending != {}
      invariant done !! pending && done + pending == forward.Keys
      invariant PartialInverse(forward, done, mapping)
      decreases pending
    {
      var svgId :| svgId in pending;
      var appGroup := forward[svgId];
      AppendKeepsPartialInverse(forward, done, mapping, svgId);
      mapping := AppendId(mapping, appGroup, svgId);
      pending := pending - {svgId};
      done := done + {svgId};
    }
    assert done == forward.Keys;
    CompletePartialInverse(forward, mapping);
    InverseTotalLength(forward, mapping);
  }

  /** A list without duplicates has as many distinct elements as entries. */
  lemma {:induction false} DistinctCount(s: seq<string>)
    requires NoDuplicates(s)
    ensures |set x | x in s| == |s|
  {
    if s != [] {
      var init := s[..|s| - 1];
      assert NoDuplicates(init);
      DistinctCount(init);
      assert (set x | x in s) == (set x | x in init) + {s[|s| - 1]};
      assert s[|s| - 1] !in init;
    }
  }

  /** No list repeats an id and no id is in two lists. */
  ghost predicate DisjointLists(m: map<string, seq<string>>)
  {
    && (forall g | g in m :: NoDuplicates(m[g]))
    && (forall g, h, s | g in m && h in m && s in m[g] && s in m[h] :: g == h)
  }

  /** Every id that occurs in some list. */
  ghost function Listed(m: map<string, seq<string>>): set<string>
  {
    set g, s | g in m && s in m[g] :: s
  }

  /** Taking one list out of a table of disjoint lists leaves its ids out of the rest. */
  lemma ListedWithout(m: map<string, seq<string>>, g: string)
    requires DisjointLists(m) && g in m
    ensures DisjointLists(m - {g})
    ensures Listed(m) == (set x | x in m[g]) + Listed(m - {g})
    ensures (set x | x in m[g]) !! Listed(m - {g})
  {
    var rest := m - {g};
    forall s | s in Listed(m) ensures s in m[g] || s in Listed(rest) {
      var h :| h in m && s in m[h];
      if h != g {
        assert h in rest && s in rest[h];
      }
    }
    forall s | s in Listed(rest) ensures s !in m[g] {
      var h :| h in rest && s in rest[h];
    }
  }

  /** For disjoint duplicate-free lists the total length counts the listed ids. */
  lemma {:induction false} TotalLengthListed(m: map<string, seq<string>>)
    requires DisjointLists(m)
    ensures TotalLength(m) == |Listed(m)|
    decreases |m|
  {
    if m == map[] {
      assert Listed(m) == {};
    } else {
      var g :| g in m;
      TotalLengthPick(m, g);
      ListedWithout(m, g);
      assert (m - {g}).Keys < m.Keys;
      TotalLengthListed(m - {g});
      DistinctCount(m[g]);
    }
  }

  /** The lists of an inverse are disjoint and free of duplicates. */
  lemma InverseListsDisjoint(forward: map<string, string>, inv: map<string, seq<string>>)
    requires IsInverse(forward, inv)
    ensures DisjointLists(inv)
  {
    forall g, h, s | g in inv && h in inv && s in inv[g] && s in inv[h] ensures g == h {
      assert forward[s] == g && forward[s] == h;
    }
  }

  /** The ids listed by an inverse are exactly the ids of the forward table. */
  lemma InverseListsEveryId(forward: map<string, string>, inv: map<string, seq<string>>)
    requires IsInverse(forward, inv)
    ensures Listed(inv) == forward.Keys
  {
    forall s | s in forward ensures s in Listed(inv) {
      assert s in inv[forward[s]];
    }
  }

  /**
   * In any exact inverse, the list lengths add up to the number of region
   * ids: nothing is lost and nothing is doubled.
   */
  lemma InverseTotalLength(forward: map<string, string>, inv: map<string, seq<string>>)
    requires IsInverse(forward, inv)
    ensures TotalLength(inv) == |forward|
  {
    InverseListsDisjoint(forward, inv);
    InverseListsEveryId(forward, inv);
    TotalLengthListed(inv);
  }

  /** `svgIds(for:)`: the ids of one group, or none for a group the table does not know. */
  function SvgIds(appToSvg: map<string, seq<string>>, muscleGroup: string): (ids: seq<string>)
    requires IsInverse(SvgToAppMapping, appToSvg)
    ensures muscleGroup !in SvgToAppMapping.Values ==> ids == []
    ensures NoDuplicates(ids)
    ensures forall s :: s in ids <==> AppMuscleGroup(s) == Some(muscleGroup)
  {
    if muscleGroup in appToSvg then appToSvg[muscleGroup] else []
  }

  /** `appMuscleGroup(for:)`: the group of a region id, nil for an unknown id. */
  function AppMuscleGroup(svgId: string): (group: Option<string>)
    ensures group.None? <==> svgId !in SvgToAppMapping
    ensures group.Some? ==> group.value in SvgToAppMapping.Values
  {
    if svgId in SvgToAppMapping then Some(SvgToAppMapping[svgId]) else None
  }

  /** The three pectoral regions all belong to "Chest". */
  lemma PecsAreChest()
    ensures AppMuscleGroup("upper_pecs") == Some("Chest")
    ensures AppMuscleGroup("middle_pecs") == Some("Chest")
    ensures AppMuscleGroup("lower_pecs") == Some("Chest")
  {
  }

  /** The muscle groups that occur in the table (proved by TableGroups). */
  const AppMuscleGroups: set<string> := set g | g in GroupsAscending

  /** Every value of the table is one of the listed groups. */
  lemma TableValuesAreGroups()
    ensures SvgToAppMapping.Values <= AppMuscleGroups
  {
    assert forall s | s in SvgToAppMapping :: SvgToAppMapping[s] in GroupsAscending;
    forall g | g in SvgToAppMapping.Values ensures g in AppMuscleGroups {
      var s :| s in SvgToAppMapping && SvgToAppMapping[s] == g;
    }
  }

  // Every listed group occurs in the table: one witness region per group,
  // in four lemmas to keep each lookup in the literal table small.

  lemma LowerBodyGroupsInTable()
    ensures {"Full Body", "Glutes", "Quads", "Calves", "Hamstrings", "Core", "Abs"} <= SvgToAppMapping.Values
  {
    var m := SvgToAppMapping;
    assert m["neck"] == "Full Body" && m["hip_abductor"] == "Glutes" && m["hip_adductor"] == "Quads";
    assert m["calves"] == "Calves" && m["hamstrings"] == "Hamstrings" && m["obliques"] == "Core";
    assert m["lower_abs"] == "Abs";
  }

  lemma ArmGroupsInTable()
    ensures {"Forearms", "Triceps", "Biceps", "Shoulders"} <= SvgToAppMapping.Values
  {
    var m := SvgToAppMapping;
    assert m["forearms"] == "Forearms" && m["triceps"] == "Triceps" && m["biceps"] == "Biceps";
    assert m["rear_delts"] == "Shoulders";
  }

  lemma BackGroupsInTable()
    ensures {"Lower Back", "Upper Back"} <= SvgToAppMapping.Values
  {
    var m := SvgToAppMapping;
    assert m["lower_back"] == "Lower Back";
    assert m["lats"] == "Upper Back";
  }

  lemma ChestInTable()
    ensures "Chest" in SvgToAppMapping.Values
  {
    assert SvgToAppMapping["lower_pecs"] == "Chest";
  }

  lemma GroupsAreTableValues()
    ensures AppMuscleGroups <= SvgToAppMapping.Values
  {
    LowerBodyGroupsInTable();
    ArmGroupsInTable();
    BackGroupsInTable();
    ChestInTable();
  }

  /** The table's groups are exactly the 14 listed ones, "Full Body" among them. */
  lemma TableGroups()
    ensures SvgToAppMapping.Values == AppMuscleGroups
    ensures FullBody in SvgToAppMapping.Values
  {
    TableValuesAreGroups();
    GroupsAreTableValues();
  }

  /** Swift's `<` on strings of ASCII letters and spaces: lexicographic by code point. */
  predicate StringLess(a: string, b: string)
  {
    if |a| == 0 then |b| > 0
    else |b| > 0 && (a[0] < b[0] || (a[0] == b[0] && StringLess(a[1..], b[1..])))
  }

  /** The table's groups in ascending order. */
  const GroupsAscending: seq<string> := [
    "Abs", "Biceps", "Calves", "Chest", "Core", "Forearms", "Full Body",
    "Glutes", "Hamstrings", "Lower Back", "Quads", "Shoulders", "Triceps", "Upper Back"
  ]

  lemma GroupsAscendingIsSorted()
    ensures forall i :: 0 < i < |GroupsAscending| ==> StringLess(GroupsAscending[i - 1], GroupsAscending[i])
  {
  }

  /**
   * `Set(svgToAppMapping.values).sorted()`: the checklist rows, every group
   * of the table once (strict ascent rules out repeats), in ascending order.
   */
  function AllMuscles(): (groups: seq<string>)
    ensures forall g :: g in groups <==> g in SvgToAppMapping.Values
    ensures forall i :: 0 < i < |groups| ==> StringLess(groups[i - 1], groups[i])
  {
    GroupsAscendingIsSorted();
    TableGroups();
    GroupsAscending
  }

  /** Every group of the inverse has at least one region: no group is lost. */
  lemma EveryGroupHasRegions(forward: map<string, string>, inv: map<string, seq<string>>, group: string)
    requires IsInverse(forward, inv)
    requires group in forward.Values
    ensures group in inv && |inv[group]| > 0
  {
    var s :| s in forward && forward[s] == group;
    assert s in inv[group];
  }
}
