/**
 * Selecting the spaces a run works on: by storey, by name pattern, by the
 * "Category" property; finding the target storey; collecting the space
 * topologies keyed by GlobalId and the subset relevant to one wall.
 */
module SpaceFilters {
  import opened Common
  import opened Ifc
  import opened PyDict

  // ---------------------------------------------------------------------
  // filter_ifcspaces_by_storey

  /** An IfcRelAggregates whose RelatingObject is a storey with that Name. */
  predicate StoreyRelation(d: Decomposition, storeyName: string)
  {
    d.isAggregates && d.relatingObject.IsStorey() && d.relatingObject.name == Some(storeyName)
  }

  predicate InStorey(space: Space, storeyName: string)
  {
    exists k :: 0 <= k < |space.decomposes| && StoreyRelation(space.decomposes[k], storeyName)
  }

  function InStoreyTest(storeyName: string): Space -> bool
  {
    (s: Space) => InStorey(s, storeyName)
  }

  /** The spaces aggregated into the named storey, in input order; the inner
    * loop stops at the first matching relation. */
  method FilterIfcSpacesByStorey(spaces: seq<Space>, storeyName: string) returns (filtered: seq<Space>)
    ensures filtered == Keep(spaces, InStoreyTest(storeyName))
  {
    filtered := [];
    for i := 0 to |spaces|
      invariant filtered == Keep(spaces[..i], InStoreyTest(storeyName))
    {
      assert spaces[..i + 1][..i] == spaces[..i];
      var space := spaces[i];
      var j := 0;
      while j < |space.decomposes|
        invariant 0 <= j <= |space.decomposes|
        invariant filtered == Keep(spaces[..i], InStoreyTest(storeyName))
        invariant forall k :: 0 <= k < j ==> !StoreyRelation(space.decomposes[k], storeyName)
      {
        var rel := space.decomposes[j];
        if rel.isAggregates && rel.relatingObject.IsStorey() {
          if rel.relatingObject.name == Some(storeyName) {
            filtered := filtered + [space];
            break;
          }
        }
        j := j + 1;
      }
    }
    assert spaces[..|spaces|] == spaces;
  }

  /** A space is kept once if it lies in the storey, however many of its
    * relations name that storey, and dropped otherwise. */
  lemma {:induction false} StoreyFilterKeepsOnce(spaces: seq<Space>, storeyName: string, s: Space)
    ensures Count(Keep(spaces, InStoreyTest(storeyName)), s) == if InStorey(s, storeyName) then Count(spaces, s) else 0
    ensures IsSubsequence(Keep(spaces, InStoreyTest(storeyName)), spaces)
  {
    KeepCount(spaces, InStoreyTest(storeyName), s);
    KeepSubsequence(spaces, InStoreyTest(storeyName));
  }

  /** Filtering the filtered spaces by the same storey again returns them
    * unchanged. */
  lemma {:induction false} StoreyFilterIdempotent(spaces: seq<Space>, storeyName: string)
    ensures Keep(Keep(spaces, InStoreyTest(storeyName)), InStoreyTest(storeyName)) == Keep(spaces, InStoreyTest(storeyName))
  {
    KeepIdempotent(spaces, InStoreyTest(storeyName));
  }

  // ---------------------------------------------------------------------
  // filter_spaces_by_name

  predicate StartsWith(s: string, prefix: string)
  {
    |prefix| <= |s| && s[..|prefix|] == prefix
  }

  /** `re.compile(r'^Area:|[-]').search(name)` finds a match. */
  predicate ExcludedName(name: string)
  {
    StartsWith(name, "Area:") || '-' in name
  }

  predicate AllAsciiDigits(s: string)
  {
    forall k :: 0 <= k < |s| ==> '0' <= s[k] <= '9'
  }

  /** `re.compile(r'^\d{1,5}$').match(name)` succeeds: one to five digits,
    * since `$` also matches just before a final newline optionally followed
    * by that newline. */
  predicate DigitName(name: string)
  {
    var body := if |name| > 0 && name[|name| - 1] == '\n' then name[..|name| - 1] else name;
    1 <= |body| <= 5 && AllAsciiDigits(body)
  }

  /** The name rule of the runs that exclude area and dashed names. */
  function ExcludeRule(): string -> bool
  {
    name => !ExcludedName(name)
  }

  /** The name rule of the runs that keep purely numeric room names. */
  function DigitRule(): string -> bool
  {
    name => DigitName(name)
  }

  /** One space of the name filter: a missing Name is a TypeError in `re`. */
  function NameStep(accept: string -> bool): Space -> Outcome<seq<Space>>
  {
    (s: Space) => if s.name.None? then Raised(TypeError) else if accept(s.name.value) then Returned([s]) else Returned([])
  }

  function NamedAndAccepted(accept: string -> bool): Space -> bool
  {
    (s: Space) => s.name.Some? && accept(s.name.value)
  }

  method FilterSpacesByName(spaces: seq<Space>, accept: string -> bool) returns (filtered: Outcome<seq<Space>>)
    ensures filtered == Gather(spaces, NameStep(accept))
  {
    var kept: seq<Space> := [];
    for i := 0 to |spaces|
      invariant Gather(spaces[..i], NameStep(accept)) == Returned(kept)
    {
      GatherStep(spaces, NameStep(accept), i);
      var space := spaces[i];
      assert NameStep(accept)(space) ==
        if space.name.None? then Raised(TypeError) else Returned(if accept(space.name.value) then [space] else []);
      if space.name.None? {
        GatherRaisedStays(spaces, NameStep(accept), i + 1, TypeError);
        return Raised(TypeError);
      }
      if accept(space.name.value) {
        kept := kept + [space];
      } else {
        assert kept + [] == kept;
      }
    }
    GatherAll(spaces, NameStep(accept));
    return Returned(kept);
  }

  /** The name filter raises TypeError iff some space has no Name; otherwise
    * it keeps, in order, exactly the spaces whose name the rule accepts. */
  lemma {:induction false} NameFilterResult(spaces: seq<Space>, accept: string -> bool)
    ensures Gather(spaces, NameStep(accept)).Raised? <==> exists k :: 0 <= k < |spaces| && spaces[k].name.None?
    ensures Gather(spaces, NameStep(accept)).Raised? ==> Gather(spaces, NameStep(accept)).exc == TypeError
    ensures Gather(spaces, NameStep(accept)).Returned? ==>
      Gather(spaces, NameStep(accept)).value == Keep(spaces, NamedAndAccepted(accept))
    decreases |spaces|
  {
    if |spaces| > 0 {
      var init := spaces[..|spaces| - 1];
      NameFilterResult(init, accept);
      assert forall k :: 0 <= k < |init| ==> init[k] == spaces[k];
    }
  }

  /** With the exclude rule a named space is kept iff its name neither starts
    * with "Area:" nor contains '-'. */
  lemma ExcludeRuleMeaning(name: string)
    ensures ExcludeRule()(name) <==> !(|name| >= 5 && name[..5] == "Area:") && forall k :: 0 <= k < |name| ==> name[k] != '-'
  {
  }

  /** With the digit rule "101" and "101\n" are kept; "", "123456", "1a" and
    * "12\n\n" are not. */
  lemma DigitRuleExamples()
    ensures DigitRule()("101") && DigitRule()("101\n")
    ensures !DigitRule()("") && !DigitRule()("123456") && !DigitRule()("1a") && !DigitRule()("12\n\n")
  {
    assert "1a"[1] == 'a';
    assert "12\n"[2] == '\n';
    assert "12\n\n"[..3] == "12\n";
    assert "101\n"[..3] == "101";
  }

  /** The storey filter followed by the name filter keeps exactly the spaces
    * that satisfy both, in input order. */
  lemma {:induction false} StoreyThenNameFilter(spaces: seq<Space>, storeyName: string, accept: string -> bool)
    requires forall k :: 0 <= k < |spaces| ==> spaces[k].name.Some?
    ensures Gather(Keep(spaces, InStoreyTest(storeyName)), NameStep(accept)) ==
      Returned(Keep(spaces, s => InStorey(s, storeyName) && s.name.Some? && accept(s.name.value)))
  {
    var inStorey := Keep(spaces, InStoreyTest(storeyName));
    KeepMembers(spaces, InStoreyTest(storeyName));
    assert forall s :: s in inStorey ==> s.name.Some?;
    NameFilterResult(inStorey, accept);
    KeepThenKeep(spaces, InStoreyTest(storeyName), NamedAndAccepted(accept),
      (s: Space) => InStorey(s, storeyName) && s.name.Some? && accept(s.name.value));
  }

  function GuidsOf(spaces: seq<Space>): (guids: seq<string>)
    ensures |guids| == |spaces|
  {
    seq(|spaces|, k requires 0 <= k < |spaces| => spaces[k].globalId)
  }

  /** `get_guids_of_spaces`: one GlobalId per space, in the same order. */
  method GetGuidsOfSpaces(spaces: seq<Space>) returns (guids: seq<string>)
    ensures |guids| == |spaces|
    ensures forall k :: 0 <= k < |spaces| ==> guids[k] == spaces[k].globalId
  {
    guids := [];
    for i := 0 to |spaces|
      invariant |guids| == i
      invariant forall k :: 0 <= k < i ==> guids[k] == spaces[k].globalId
    {
      guids := guids + [spaces[i].globalId];
    }
  }

  // ---------------------------------------------------------------------
  // filter_spaces_by_category

  const DefaultCategory: string := "Rooms"

  /** The inner loop over one property set's properties: True at the first
    * "Category" property equal to the value (the `break`); reading the
    * NominalValue of a "Category" property that has none raises. */
  function SetHasCategory(props: seq<Property>, category: string): Outcome<bool>
    decreases |props|
  {
    if |props| == 0 then Returned(false)
    else
      var p := props[0];
      if p.name != "Category" then SetHasCategory(props[1..], category)
      else if p.OtherProperty? || p.nominalValue.None? then Raised(AttributeError)
      else if p.nominalValue.value == Text(category) then Returned(true)
      else SetHasCategory(props[1..], category)
  }

  /** What one IsDefinedBy entry adds for a space: the space itself once if
    * the entry is a property set holding the category. */
  function CategoryStep(space: Space, category: string): Definition -> Outcome<seq<Space>>
  {
    (d: Definition) =>
      if d.DefinesByType? || !d.relatingPropertyDefinition.PropertySet? then Returned([])
      else
        match SetHasCategory(d.relatingPropertyDefinition.properties, category)
        case Raised(e) => Raised(e)
        case Returned(b) => Returned(if b then [space] else [])
  }

  function SpaceStep(category: string): Space -> Outcome<seq<Space>>
  {
    (s: Space) => Gather(s.isDefinedBy, CategoryStep(s, category))
  }

  /** The property loop with its `break`. */
  method PropertySetHasCategory(props: seq<Property>, category: string) returns (found: Outcome<bool>)
    ensures found == SetHasCategory(props, category)
  {
    var j := 0;
    while j < |props|
      invariant 0 <= j <= |props|
      invariant SetHasCategory(props, category) == SetHasCategory(props[j..], category)
    {
      var p := props[j];
      assert props[j..][1..] == props[j + 1..];
      if p.name == "Category" {
        if p.OtherProperty? || p.nominalValue.None? {
          return Raised(AttributeError);
        }
        if p.nominalValue.value == Text(category) {
          return Returned(true);
        }
      }
      j := j + 1;
    }
    return Returned(false);
  }

  /** `filter_spaces_by_category`: a space is appended once per property set
    * that holds the category, so it can be appended more than once. */
  method FilterSpacesByCategory(spaces: seq<Space>, category: string) returns (filtered: Outcome<seq<Space>>)
    ensures filtered == Gather(spaces, SpaceStep(category))
  {
    var kept: seq<Space> := [];
    for i := 0 to |spaces|
      invariant Gather(spaces[..i], SpaceStep(category)) == Returned(kept)
    {
      GatherStep(spaces, SpaceStep(category), i);
      var space := spaces[i];
      var defs := space.isDefinedBy;
      var added: seq<Space> := [];
      for j := 0 to |defs|
        invariant Gather(defs[..j], CategoryStep(space, category)) == Returned(added)
      {
        GatherStep(defs, CategoryStep(space, category), j);
        var d := defs[j];
        assert CategoryStep(space, category)(d) ==
          if d.DefinesByType? || !d.relatingPropertyDefinition.PropertySet? then Returned([])
          else match SetHasCategory(d.relatingPropertyDefinition.properties, category)
            case Raised(e) => Raised(e)
            case Returned(b) => Returned(if b then [space] else []);
        if d.DefinesByProperties? && d.relatingPropertyDefinition.PropertySet? {
          var found := PropertySetHasCategory(d.relatingPropertyDefinition.properties, category);
          if found.Raised? {
            GatherRaisedStays(defs, CategoryStep(space, category), j + 1, found.exc);
            GatherAll(defs, CategoryStep(space, category));
            GatherRaisedStays(spaces, SpaceStep(category), i + 1, found.exc);
            return Raised(found.exc);
          }
          if found.value {
            added := added + [space];
          } else {
            assert added + [] == added;
          }
        } else {
          assert added + [] == added;
        }
      }
      GatherAll(defs, CategoryStep(space, category));
      kept := kept + added;
    }
    GatherAll(spaces, SpaceStep(category));
    return Returned(kept);
  }

  /** A space whose two property sets both hold the category is listed twice. */
  lemma CategoryDuplicates(space: Space, category: string)
    requires |space.isDefinedBy| == 2
    requires forall k :: 0 <= k < 2 ==>
      space.isDefinedBy[k] == DefinesByProperties(PropertySet([SingleValue("Category", Some(Text(category)))]))
    ensures Gather([space], SpaceStep(category)) == Returned([space, space])
  {
    var step := CategoryStep(space, category);
    var defs := space.isDefinedBy;
    assert step(defs[0]) == Returned([space]);
    assert step(defs[1]) == Returned([space]);
    assert defs[..1][..0] == [] && defs[..1][0] == defs[0];
    assert Gather(defs[..1], step) == Then(Returned([]), step(defs[0]));
    assert [] + [space] == [space];
    assert Gather(defs[..1], step) == Returned([space]);
    assert defs[..2][..1] == defs[..1];
    assert defs[..2] == defs && defs[..2][1] == defs[1];
    assert Gather(defs, step) == Then(Gather(defs[..1], step), step(defs[1]));
    assert [space] + [space] == [space, space];
    assert SpaceStep(category)(space) == Gather(defs, step);
    assert [space][..0] == [] && [space][0] == space;
    assert Gather([space], SpaceStep(category)) == Then(Returned([]), SpaceStep(category)(space));
    assert [] + [space, space] == [space, space];
  }

  // ---------------------------------------------------------------------
  // find_ifc_storey

  /** The first storey with that Name (`break` at the match), or None. */
  method FindIfcStorey(storeys: seq<Structure>, storeyName: string) returns (target: Option<Structure>)
    ensures target.None? <==> forall k :: 0 <= k < |storeys| ==> storeys[k].name != Some(storeyName)
    ensures target.Some? ==>
      exists k :: 0 <= k < |storeys| && storeys[k] == target.value && forall k' :: 0 <= k' < k ==> storeys[k'].name != Some(storeyName)
    ensures target.Some? ==> target.value.name == Some(storeyName)
  {
    target := None;
    var i := 0;
    while i < |storeys|
      invariant 0 <= i <= |storeys|
      invariant forall k :: 0 <= k < i ==> storeys[k].name != Some(storeyName)
    {
      if storeys[i].name == Some(storeyName) {
        target := Some(storeys[i]);
        break;
      }
      i := i + 1;
    }
  }

  // ---------------------------------------------------------------------
  // dic_spaces: space topologies keyed by their "IFC_global_id"

  /** What reading a topology's dictionary gives: an exception, no
    * dictionary, or the value stored under "IFC_global_id". */
  datatype GuidLookup = LookupRaised | NoDictionary | GuidValue(guid: Option<string>)

  /** The guid under which an item is stored, if it is stored: the
    * dictionary exists and the value is truthy. */
  function StoredGuid(l: GuidLookup): Option<string>
  {
    if l.GuidValue? && l.guid.Some? && l.guid.value != "" then l.guid else None
  }

  /** The last item stored under `g`: later items overwrite earlier ones. */
  function LastStored<T>(items: seq<T>, lookup: T -> GuidLookup, g: string): Option<T>
    decreases |items|
  {
    if |items| == 0 then None
    else if StoredGuid(lookup(items[|items| - 1])) == Some(g) then Some(items[|items| - 1])
    else LastStored(items[..|items| - 1], lookup, g)
  }

  /** The loop that fills `dic_spaces`, skipping items whose lookup raises,
    * has no dictionary or no guid. */
  /** The guids items are stored under, in item order, repeats kept. */
  function StoredGuids<T>(items: seq<T>, lookup: T -> GuidLookup): seq<string>
    decreases |items|
  {
    if |items| == 0 then []
    else
      var g := StoredGuid(lookup(items[|items| - 1]));
      StoredGuids(items[..|items| - 1], lookup) + (if g.Some? then [g.value] else [])
  }

  /** The dict maps each guid to the last item stored under it, and its
    * keys are the stored guids in the order each was first stored. */
  method CollectSpaceTopologies<T>(items: seq<T>, lookup: T -> GuidLookup) returns (spaces: Dict<string, T>)
    ensures PyDict.Valid(spaces)
    ensures forall g :: Get(spaces, g) == LastStored(items, lookup, g)
    ensures PyDict.Keys(spaces) == FirstOccurrences(StoredGuids(items, lookup))
  {
    spaces := [];
    for i := 0 to |items|
      invariant PyDict.Valid(spaces)
      invariant forall g :: Get(spaces, g) == LastStored(items[..i], lookup, g)
      invariant PyDict.Keys(spaces) == FirstOccurrences(StoredGuids(items[..i], lookup))
    {
      var l := lookup(items[i]);
      CollectKeysStep(spaces, items, lookup, i);
      CollectGetStep(spaces, items, lookup, i);
      if l.GuidValue? && l.guid.Some? && l.guid.value != "" {
        PutValid(spaces, l.guid.value, items[i]);
        spaces := Put(spaces, l.guid.value, items[i]);
      }
    }
    assert items[..|items|] == items;
  }

  lemma CollectGetStep<T>(spaces: Dict<string, T>, items: seq<T>, lookup: T -> GuidLookup, i: nat)
    requires i < |items| && PyDict.Valid(spaces)
    requires forall g :: Get(spaces, g) == LastStored(items[..i], lookup, g)
    ensures var g := StoredGuid(lookup(items[i]));
      var next := if g.Some? then Put(spaces, g.value, items[i]) else spaces;
      forall k :: Get(next, k) == LastStored(items[..i + 1], lookup, k)
  {
    assert items[..i + 1][..i] == items[..i];
    var g := StoredGuid(lookup(items[i]));
    if g.Some? {
      PutValid(spaces, g.value, items[i]);
    }
  }

  lemma CollectKeysStep<T>(spaces: Dict<string, T>, items: seq<T>, lookup: T -> GuidLookup, i: nat)
    requires i < |items| && PyDict.Keys(spaces) == FirstOccurrences(StoredGuids(items[..i], lookup))
    ensures var g := StoredGuid(lookup(items[i]));
      PyDict.Keys(if g.Some? then Put(spaces, g.value, items[i]) else spaces) == FirstOccurrences(StoredGuids(items[..i + 1], lookup))
  {
    var g := StoredGuid(lookup(items[i]));
    assert items[..i + 1][..i] == items[..i];
    if g.Some? {
      PutKeys(spaces, g.value, items[i]);
      HasKeyInKeys(spaces, g.value);
      FirstOccurrencesSnoc(StoredGuids(items[..i], lookup), g.value);
    } else {
      assert items[..i + 1][i] == items[i];
      assert StoredGuids(items[..i + 1], lookup) == StoredGuids(items[..i], lookup) + [];
      assert StoredGuids(items[..i], lookup) + [] == StoredGuids(items[..i], lookup);
    }
  }

  /** `{g: dic_spaces[g] for g in relevant_rooms if g in dic_spaces}`. */
  function RelevantRooms<T>(relevant: seq<string>, spaces: Dict<string, T>): (r: Dict<string, T>)
    requires PyDict.Valid(spaces)
    ensures PyDict.Valid(r)
    ensures forall g :: Get(r, g) == if g in relevant then Get(spaces, g) else None
    decreases |relevant|
  {
    if |relevant| == 0 then []
    else
      var init := RelevantRooms(relevant[..|relevant| - 1], spaces);
      var g := relevant[|relevant| - 1];
      assert forall x :: x in relevant <==> x in relevant[..|relevant| - 1] || x == g;
      match Get(spaces, g)
      case None => init
      case Some(t) =>
        PutValid(init, g, t);
        Put(init, g, t)
  }
}
