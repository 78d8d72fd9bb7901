/**
 * The relation tables the CSV scripts read out of IFC relations: the rooms on
 * either side of each door and each window (IfcRelSpaceBoundary), the walls
 * bounding each room, and the wall hosting each door and window
 * (IfcRelFillsElement, then IfcRelVoidsElement).
 */
module Relations {
  import opened Common
  import opened Ifc
  import opened PyDict
  import Text

  // ---------------------------------------------------------------------
  // A dict of lists grown by appending

  /** `d[k].append(v)`, the list being created first when k is new. */
  function AppendTo(d: Dict<string, seq<string>>, k: string, v: string): Dict<string, seq<string>>
  {
    Put(d, k, (if HasKey(d, k) then Get(d, k).value else []) + [v])
  }

  lemma AppendToGet(d: Dict<string, seq<string>>, k: string, v: string, k': string)
    ensures Get(AppendTo(d, k, v), k') ==
      if k' == k then Some((if Get(d, k).Some? then Get(d, k).value else []) + [v]) else Get(d, k')
  {
    PutGet(d, k, (if HasKey(d, k) then Get(d, k).value else []) + [v], k');
  }

  lemma AppendToKeys(d: Dict<string, seq<string>>, k: string, v: string)
    ensures PyDict.Keys(AppendTo(d, k, v)) == if HasKey(d, k) then PyDict.Keys(d) else PyDict.Keys(d) + [k]
    ensures PyDict.Valid(d) ==> PyDict.Valid(AppendTo(d, k, v))
  {
    PutKeys(d, k, (if HasKey(d, k) then Get(d, k).value else []) + [v]);
    if PyDict.Valid(d) {
      PutValid(d, k, (if HasKey(d, k) then Get(d, k).value else []) + [v]);
    }
  }

  /** The dict after appending every (key, value) entry in order. */
  function Group(entries: seq<(string, string)>): Dict<string, seq<string>>
  {
    if |entries| == 0 then []
    else
      var e := entries[|entries| - 1];
      AppendTo(Group(entries[..|entries| - 1]), e.0, e.1)
  }

  /** The values entered under k, in entry order, repeats included. */
  function ValuesOf(entries: seq<(string, string)>, k: string): seq<string>
  {
    if |entries| == 0 then []
    else
      var e := entries[|entries| - 1];
      ValuesOf(entries[..|entries| - 1], k) + (if e.0 == k then [e.1] else [])
  }

  function KeysOf(entries: seq<(string, string)>): (ks: seq<string>)
    ensures |ks| == |entries| && forall i :: 0 <= i < |entries| ==> ks[i] == entries[i].0
  {
    seq(|entries|, i requires 0 <= i < |entries| => entries[i].0)
  }

  /** k has values iff some entry is under k; each value is kept as often as
    * it was entered. */
  lemma {:induction false} ValuesOfMembers(entries: seq<(string, string)>, k: string)
    ensures ValuesOf(entries, k) == [] <==> k !in KeysOf(entries)
    ensures forall v :: Count(ValuesOf(entries, k), v) == Count(entries, (k, v))
  {
    if |entries| > 0 {
      var init := entries[..|entries| - 1];
      var e := entries[|entries| - 1];
      ValuesOfMembers(init, k);
      assert entries == init + [e];
      assert KeysOf(entries) == KeysOf(init) + [e.0];
      forall v ensures Count(ValuesOf(entries, k), v) == Count(entries, (k, v)) {
        CountAppend(ValuesOf(init, k), if e.0 == k then [e.1] else [], v);
        CountAppend(init, [e], (k, v));
      }
    }
  }

  lemma {:induction false} GroupValid(entries: seq<(string, string)>)
    ensures PyDict.Valid(Group(entries))
  {
    if |entries| > 0 {
      var e := entries[|entries| - 1];
      GroupValid(entries[..|entries| - 1]);
      AppendToKeys(Group(entries[..|entries| - 1]), e.0, e.1);
    }
  }

  /** Looking up k gives exactly the values entered under it, and nothing
    * when none was. */
  lemma {:induction false} GroupGet(entries: seq<(string, string)>, k: string)
    ensures Get(Group(entries), k) == if ValuesOf(entries, k) == [] then None else Some(ValuesOf(entries, k))
  {
    if |entries| > 0 {
      var e := entries[|entries| - 1];
      var init := entries[..|entries| - 1];
      GroupGet(init, k);
      AppendToGet(Group(init), e.0, e.1, k);
      assert ValuesOf(entries, k) == ValuesOf(init, k) + (if e.0 == k then [e.1] else []);
      assert ValuesOf(init, k) + [] == ValuesOf(init, k);
    }
  }

  /** The keys come in the order each was first entered. */
  lemma {:induction false} GroupKeys(entries: seq<(string, string)>)
    ensures PyDict.Keys(Group(entries)) == FirstOccurrences(KeysOf(entries))
  {
    if |entries| > 0 {
      var e := entries[|entries| - 1];
      var init := entries[..|entries| - 1];
      GroupKeys(init);
      GroupGet(init, e.0);
      ValuesOfMembers(init, e.0);
      KeysOfSnoc(entries);
      FirstOccurrencesSnoc(KeysOf(init), e.0);
      AppendToKeys(Group(init), e.0, e.1);
    }
  }

  lemma KeysOfSnoc(entries: seq<(string, string)>)
    requires |entries| > 0
    ensures KeysOf(entries) == KeysOf(entries[..|entries| - 1]) + [entries[|entries| - 1].0]
  {
  }

  // ---------------------------------------------------------------------
  // doorinfo_to_csv and windowinfo_to_csv

  /** `element in elements`, entities comparing by identity; a missing
    * element is in no list. */
  predicate Listed(e: Option<Element>, elements: seq<Element>)
  {
    e.Some? && exists d :: d in elements && d.id == e.value.id
  }

  /** `door_storey and door_storey[0].RelatingStructure == target_storey`. */
  predicate FirstStoreyIs(door: Element, target: Option<Structure>)
  {
    |door.containedIn| > 0 && SameStructure(Some(door.containedIn[0]), target)
  }

  /** `get_storey`: the first storey among the structures containing the
    * element, or None. */
  function GetStorey(element: Element): (r: Option<Structure>)
    ensures r.None? <==> forall i :: 0 <= i < |element.containedIn| ==> !element.containedIn[i].IsStorey()
    ensures r.Some? ==> exists i :: 0 <= i < |element.containedIn| && element.containedIn[i] == r.value && r.value.IsStorey() && forall k :: 0 <= k < i ==> !element.containedIn[k].IsStorey()
  {
    FirstStorey(element.containedIn)
  }

  function FirstStorey(rels: seq<Structure>): (r: Option<Structure>)
    ensures r.None? <==> forall i :: 0 <= i < |rels| ==> !rels[i].IsStorey()
    ensures r.Some? ==> exists i :: 0 <= i < |rels| && rels[i] == r.value && r.value.IsStorey() && forall k :: 0 <= k < i ==> !rels[k].IsStorey()
  {
    if |rels| == 0 then None
    else if rels[0].IsStorey() then Some(rels[0])
    else
      var r := FirstStorey(rels[1..]);
      assert forall i :: 1 <= i < |rels| ==> rels[i] == rels[1..][i - 1];
      assert r.Some? ==> exists i :: 0 <= i < |rels| && rels[i] == r.value && r.value.IsStorey() && forall k :: 0 <= k < i ==> !rels[k].IsStorey() by {
        if r.Some? {
          var i :| 0 <= i < |rels[1..]| && rels[1..][i] == r.value && r.value.IsStorey() && forall k :: 0 <= k < i ==> !rels[1..][k].IsStorey();
          assert rels[i + 1] == r.value;
          assert forall k :: 0 <= k < i + 1 ==> !rels[k].IsStorey() by {
            forall k | 0 <= k < i + 1 ensures !rels[k].IsStorey() {
              if k > 0 { assert rels[k] == rels[1..][k - 1]; }
            }
          }
        }
      }
      r
  }

  /** The door test of doorinfo_to_csv. */
  function DoorTest(doors: seq<Element>, target: Option<Structure>): Element -> bool
  {
    (e: Element) => Listed(Some(e), doors) && FirstStoreyIs(e, target)
  }

  /** The window test of windowinfo_to_csv: `get_storey(window) ==
    * target_storey`, so a window in no storey matches a missing target. */
  function WindowTest(windows: seq<Element>, target: Option<Structure>): Element -> bool
  {
    (e: Element) => Listed(Some(e), windows) && SameStructure(GetStorey(e), target)
  }

  /** The (element guid, room guid) pairs of the boundaries that have both
    * ends and whose element passes the test, in relation order. */
  function Entries(bs: seq<SpaceBoundary>, test: Element -> bool): seq<(string, string)>
  {
    if |bs| == 0 then []
    else
      var b := bs[|bs| - 1];
      Entries(bs[..|bs| - 1], test)
        + if b.relatedBuildingElement.Some? && test(b.relatedBuildingElement.value) && b.relatingSpace.Some?
          then [(b.relatedBuildingElement.value.globalId, b.relatingSpace.value.globalId)]
          else []
  }

  /** The loop filling `door_to_room`. */
  method DoorToRoom(bs: seq<SpaceBoundary>, doors: seq<Element>, target: Option<Structure>)
    returns (doorToRoom: Dict<string, seq<string>>)
    ensures doorToRoom == Group(Entries(bs, DoorTest(doors, target)))
  {
    doorToRoom := [];
    for k := 0 to |bs|
      invariant doorToRoom == Group(Entries(bs[..k], DoorTest(doors, target)))
    {
      assert bs[..k + 1][..k] == bs[..k];
      var b := bs[k];
      ghost var before := Entries(bs[..k], DoorTest(doors, target));
      if Listed(b.relatedBuildingElement, doors) {
        var door := b.relatedBuildingElement.value;
        var doorGlobalId := door.globalId;
        var doorStorey := door.containedIn;
        if |doorStorey| > 0 && SameStructure(Some(doorStorey[0]), target) {
          if b.relatingSpace.Some? {
            var roomGlobalId := b.relatingSpace.value.globalId;
            ghost var d0 := doorToRoom;
            if HasKey(doorToRoom, doorGlobalId) {
              doorToRoom := Put(doorToRoom, doorGlobalId, Get(doorToRoom, doorGlobalId).value + [roomGlobalId]);
            } else {
              doorToRoom := Put(doorToRoom, doorGlobalId, [roomGlobalId]);
              assert [] + [roomGlobalId] == [roomGlobalId];
            }
            assert doorToRoom == AppendTo(d0, doorGlobalId, roomGlobalId);
            assert DoorTest(doors, target)(door);
            assert Entries(bs[..k + 1], DoorTest(doors, target)) == before + [(doorGlobalId, roomGlobalId)];
            assert (before + [(doorGlobalId, roomGlobalId)])[..|before|] == before;
            continue;
          }
        }
      }
      assert Entries(bs[..k + 1], DoorTest(doors, target)) == before + [];
      assert before + [] == before;
    }
    assert bs[..|bs|] == bs;
  }

  /** The loop filling `window_to_room`, which creates the list before
    * appending. */
  method WindowToRoom(bs: seq<SpaceBoundary>, windows: seq<Element>, target: Option<Structure>)
    returns (windowToRoom: Dict<string, seq<string>>)
    ensures windowToRoom == Group(Entries(bs, WindowTest(windows, target)))
  {
    windowToRoom := [];
    for k := 0 to |bs|
      invariant windowToRoom == Group(Entries(bs[..k], WindowTest(windows, target)))
    {
      assert bs[..k + 1][..k] == bs[..k];
      var b := bs[k];
      ghost var before := Entries(bs[..k], WindowTest(windows, target));
      if Listed(b.relatedBuildingElement, windows) {
        var window := b.relatedBuildingElement.value;
        var windowGuid := window.globalId;
        var windowStorey := GetStorey(window);
        if SameStructure(windowStorey, target) {
          if b.relatingSpace.Some? {
            var roomGuid := b.relatingSpace.value.globalId;
            ghost var d0 := windowToRoom;
            if !HasKey(windowToRoom, windowGuid) {
              windowToRoom := Put(windowToRoom, windowGuid, []);
            }
            CreateThenAppend(d0, windowGuid, roomGuid);
            windowToRoom := Put(windowToRoom, windowGuid, Get(windowToRoom, windowGuid).value + [roomGuid]);
            assert WindowTest(windows, target)(window);
            assert Entries(bs[..k + 1], WindowTest(windows, target)) == before + [(windowGuid, roomGuid)];
            assert (before + [(windowGuid, roomGuid)])[..|before|] == before;
            continue;
          }
        }
      }
      assert Entries(bs[..k + 1], WindowTest(windows, target)) == before + [];
      assert before + [] == before;
    }
    assert bs[..|bs|] == bs;
  }

  /** `if k not in d: d[k] = []` followed by `d[k].append(v)` is the same
    * as appending to a possibly missing list. */
  lemma CreateThenAppend(d: Dict<string, seq<string>>, k: string, v: string)
    ensures HasKey(if HasKey(d, k) then d else Put(d, k, []), k)
    ensures var d1 := if HasKey(d, k) then d else Put(d, k, []);
      Put(d1, k, Get(d1, k).value + [v]) == AppendTo(d, k, v)
  {
    if !HasKey(d, k) {
      PutGet(d, k, [], k);
      assert Put(d, k, []) == d + [(k, [])];
      PutOverLast(d, k, [], [] + [v]);
      assert [] + [v] == [v];
    }
  }

  lemma {:induction false} PutOverLast<K, V>(d: Dict<K, V>, k: K, v: V, w: V)
    requires !HasKey(d, k)
    ensures Put(d + [(k, v)], k, w) == d + [(k, w)]
  {
    if |d| > 0 {
      var e := d + [(k, v)];
      assert e[0] == d[0] && e[0].0 != k;
      assert e[1..] == d[1..] + [(k, v)];
      assert !HasKey(d[1..], k) by {
        forall i | 0 <= i < |d[1..]| ensures d[1..][i].0 != k {
          assert d[1..][i] == d[i + 1];
        }
      }
      PutOverLast(d[1..], k, v, w);
      assert Put(e, k, w) == [e[0]] + Put(e[1..], k, w);
      assert [d[0]] + (d[1..] + [(k, w)]) == d + [(k, w)];
    } else {
      assert Put([(k, v)], k, w) == [(k, w)] + [(k, v)][1..];
      assert [(k, w)] + [(k, v)][1..] == [(k, w)];
    }
  }

  /** The rows of Output02_RoomToRoom_ByDoors.csv, or no file at all when
    * `door_to_room` is empty. */
  function DoorRows(doorToRoom: Dict<string, seq<string>>): (rows: Option<seq<seq<string>>>)
    ensures rows.None? <==> |doorToRoom| == 0
  {
    if |doorToRoom| == 0 then None else Some(Text.DictRows(doorToRoom, true))
  }

  /** Each door that qualified has exactly its rooms in relation order,
    * repeats kept; doors come in the order first met. */
  lemma DoorTable(bs: seq<SpaceBoundary>, doors: seq<Element>, target: Option<Structure>, g: string, r: string)
    ensures PyDict.Valid(Group(Entries(bs, DoorTest(doors, target))))
    ensures PyDict.Keys(Group(Entries(bs, DoorTest(doors, target)))) == FirstOccurrences(KeysOf(Entries(bs, DoorTest(doors, target))))
    ensures Get(Group(Entries(bs, DoorTest(doors, target))), g) ==
      if g in KeysOf(Entries(bs, DoorTest(doors, target))) then Some(ValuesOf(Entries(bs, DoorTest(doors, target)), g)) else None
    ensures Count(ValuesOf(Entries(bs, DoorTest(doors, target)), g), r) == Count(Entries(bs, DoorTest(doors, target)), (g, r))
  {
    var es := Entries(bs, DoorTest(doors, target));
    GroupValid(es);
    GroupKeys(es);
    GroupGet(es, g);
    ValuesOfMembers(es, g);
  }

  /** An entry is a boundary whose element passed the test and that has a
    * room; in particular a boundary without a room gives none. */
  lemma {:induction false} EntriesMembers(bs: seq<SpaceBoundary>, test: Element -> bool, g: string, r: string)
    ensures (g, r) in Entries(bs, test) <==>
      exists b :: b in bs && b.relatedBuildingElement.Some? && test(b.relatedBuildingElement.value)
        && b.relatingSpace.Some? && b.relatedBuildingElement.value.globalId == g && b.relatingSpace.value.globalId == r
  {
    if |bs| > 0 {
      var b := bs[|bs| - 1];
      EntriesMembers(bs[..|bs| - 1], test, g, r);
      assert bs == bs[..|bs| - 1] + [b];
      assert forall x :: x in bs <==> x in bs[..|bs| - 1] || x == b;
    }
  }

  /** No door file is written iff no boundary has a door of the storey and a
    * room. */
  lemma NoDoorFile(bs: seq<SpaceBoundary>, doors: seq<Element>, target: Option<Structure>)
    ensures DoorRows(Group(Entries(bs, DoorTest(doors, target)))).None? <==> Entries(bs, DoorTest(doors, target)) == []
  {
    var es := Entries(bs, DoorTest(doors, target));
    GroupKeys(es);
    if es != [] {
      assert es[0].0 in KeysOf(es);
      assert es[0].0 in FirstOccurrences(KeysOf(es));
    }
  }

  /** The window file is written even when no window qualified. */
  function WindowRows(windowToRoom: Dict<string, seq<string>>): (rows: seq<seq<string>>)
    ensures |rows| == |windowToRoom|
  {
    Text.DictRows(windowToRoom, true)
  }

  /** A window in no storey is counted when the target storey is missing. */
  lemma WindowWithoutStorey(w: Element, windows: seq<Element>)
    requires w in windows
    requires forall i :: 0 <= i < |w.containedIn| ==> !w.containedIn[i].IsStorey()
    ensures WindowTest(windows, None)(w)
  {
  }

  /** A door whose first containing structure is not the storey is not
    * counted, whatever later relations say. */
  lemma DoorUsesFirstRelation(door: Element, doors: seq<Element>, target: Structure)
    requires door in doors && |door.containedIn| > 0 && door.containedIn[0].id != target.id
    ensures !DoorTest(doors, Some(target))(door)
  {
  }

  // ---------------------------------------------------------------------
  // room_bounding_walls_to_csv

  /** The walls of `space` in relation order: boundaries whose relating space
    * is that space and whose element is an IfcWall, repeats kept. */
  function BoundingWalls(bs: seq<SpaceBoundary>, space: Space): seq<string>
  {
    if |bs| == 0 then []
    else
      var b := bs[|bs| - 1];
      BoundingWalls(bs[..|bs| - 1], space)
        + if b.relatingSpace.Some? && b.relatingSpace.value.id == space.id
             && b.relatedBuildingElement.Some? && IsA(b.relatedBuildingElement.value.entityType, "IfcWall")
          then [b.relatedBuildingElement.value.globalId]
          else []
  }

  /** The nested loop filling `space_to_walls`: one entry per space, in
    * order, even when it has no wall. */
  method SpaceToWalls(spaces: seq<Space>, bs: seq<SpaceBoundary>) returns (spaceToWalls: seq<(string, seq<string>)>)
    ensures |spaceToWalls| == |spaces|
    ensures forall i :: 0 <= i < |spaces| ==> spaceToWalls[i] == (spaces[i].globalId, BoundingWalls(bs, spaces[i]))
  {
    spaceToWalls := [];
    for i := 0 to |spaces|
      invariant |spaceToWalls| == i
      invariant forall k :: 0 <= k < i ==> spaceToWalls[k] == (spaces[k].globalId, BoundingWalls(bs, spaces[k]))
    {
      var space := spaces[i];
      var spaceGuid := space.globalId;
      var walls: seq<string> := [];
      for t := 0 to |bs|
        invariant walls == BoundingWalls(bs[..t], space)
      {
        assert bs[..t + 1][..t] == bs[..t];
        var rel := bs[t];
        if rel.relatingSpace.Some? && rel.relatingSpace.value.id == space.id {
          if rel.relatedBuildingElement.Some? && IsA(rel.relatedBuildingElement.value.entityType, "IfcWall") {
            walls := walls + [rel.relatedBuildingElement.value.globalId];
            continue;
          }
        }
        assert walls + [] == walls;
      }
      assert bs[..|bs|] == bs;
      spaceToWalls := spaceToWalls + [(spaceGuid, walls)];
    }
  }

  /** A wall is listed for a space iff some boundary of that space has it as
    * its element. */
  lemma {:induction false} BoundingWallsMembers(bs: seq<SpaceBoundary>, space: Space, g: string)
    ensures g in BoundingWalls(bs, space) <==>
      exists b :: b in bs && b.relatingSpace.Some? && b.relatingSpace.value.id == space.id
        && b.relatedBuildingElement.Some? && IsA(b.relatedBuildingElement.value.entityType, "IfcWall")
        && b.relatedBuildingElement.value.globalId == g
  {
    if |bs| > 0 {
      BoundingWallsMembers(bs[..|bs| - 1], space, g);
      assert bs == bs[..|bs| - 1] + [bs[|bs| - 1]];
      assert forall x :: x in bs <==> x in bs[..|bs| - 1] || x == bs[|bs| - 1];
    }
  }

  /** The rows of Output04_RoomBoundingWalls.csv: a space without walls gets
    * an empty second field. */
  lemma RoomWithoutWalls(bs: seq<SpaceBoundary>, space: Space)
    requires BoundingWalls(bs, space) == []
    ensures Text.JoinedRow(space.globalId, BoundingWalls(bs, space)) == [space.globalId, ""]
  {
  }

  // ---------------------------------------------------------------------
  // hosts_of_windows_and_doors

  /** The opening of the first fills relation naming the element. */
  function FirstFill(fills: seq<Fills>, element: EntityId): (r: Option<EntityId>)
    ensures r.None? <==> forall i :: 0 <= i < |fills| ==> fills[i].relatedBuildingElement != element
    ensures r.Some? ==> exists i :: (0 <= i < |fills| && fills[i].relatedBuildingElement == element && fills[i].relatingOpeningElement == r.value
      && forall k :: 0 <= k < i ==> fills[k].relatedBuildingElement != element)
  {
    if |fills| == 0 then None
    else if fills[0].relatedBuildingElement == element then Some(fills[0].relatingOpeningElement)
    else
      var r := FirstFill(fills[1..], element);
      assert forall i :: 1 <= i < |fills| ==> fills[i] == fills[1..][i - 1];
      assert r.Some? ==> exists i :: (0 <= i < |fills| && fills[i].relatedBuildingElement == element && fills[i].relatingOpeningElement == r.value
        && forall k :: 0 <= k < i ==> fills[k].relatedBuildingElement != element) by {
        if r.Some? {
          var i :| 0 <= i < |fills[1..]| && fills[1..][i].relatedBuildingElement == element && fills[1..][i].relatingOpeningElement == r.value
            && forall k :: 0 <= k < i ==> fills[1..][k].relatedBuildingElement != element;
          assert fills[i + 1] == fills[1..][i];
          forall k | 0 <= k < i + 1 ensures fills[k].relatedBuildingElement != element {
            if k > 0 { assert fills[k] == fills[1..][k - 1]; }
          }
        }
      }
      r
  }

  /** `find_hosting_wall`: the element of the first voids relation naming
    * the opening. */
  function HostingWall(voids: seq<Voids>, opening: EntityId): (r: Option<Element>)
    ensures r.None? <==> forall i :: 0 <= i < |voids| ==> voids[i].relatedOpeningElement != opening
    ensures r.Some? ==> exists i :: (0 <= i < |voids| && voids[i].relatedOpeningElement == opening && voids[i].relatingBuildingElement == r.value
      && forall k :: 0 <= k < i ==> voids[k].relatedOpeningElement != opening)
  {
    if |voids| == 0 then None
    else if voids[0].relatedOpeningElement == opening then Some(voids[0].relatingBuildingElement)
    else
      var r := HostingWall(voids[1..], opening);
      assert forall i :: 1 <= i < |voids| ==> voids[i] == voids[1..][i - 1];
      assert r.Some? ==> exists i :: (0 <= i < |voids| && voids[i].relatedOpeningElement == opening && voids[i].relatingBuildingElement == r.value
        && forall k :: 0 <= k < i ==> voids[k].relatedOpeningElement != opening) by {
        if r.Some? {
          var i :| 0 <= i < |voids[1..]| && voids[1..][i].relatedOpeningElement == opening && voids[1..][i].relatingBuildingElement == r.value
            && forall k :: 0 <= k < i ==> voids[1..][k].relatedOpeningElement != opening;
          assert voids[i + 1] == voids[1..][i];
          forall k | 0 <= k < i + 1 ensures voids[k].relatedOpeningElement != opening {
            if k > 0 { assert voids[k] == voids[1..][k - 1]; }
          }
        }
      }
      r
  }

  /** The row [type, guid, wall guid] of one element, when it is a door or a
    * window with an opening that has a host. */
  function HostRow(e: Element, fills: seq<Fills>, voids: seq<Voids>): seq<seq<string>>
  {
    if !(IsA(e.entityType, "IfcDoor") || IsA(e.entityType, "IfcWindow")) then []
    else
      match FirstFill(fills, e.id)
      case None => []
      case Some(opening) =>
        match HostingWall(voids, opening)
        case None => []
        case Some(wall) => [[e.entityType, e.globalId, wall.globalId]]
  }

  /** The rows for the elements of the storey, relation by relation. */
  function HostRows(contained: seq<seq<Element>>, fills: seq<Fills>, voids: seq<Voids>): seq<seq<string>>
  {
    if |contained| == 0 then []
    else HostRows(contained[..|contained| - 1], fills, voids) + ElementRows(contained[|contained| - 1], fills, voids)
  }

  function ElementRows(es: seq<Element>, fills: seq<Fills>, voids: seq<Voids>): seq<seq<string>>
  {
    if |es| == 0 then []
    else ElementRows(es[..|es| - 1], fills, voids) + HostRow(es[|es| - 1], fills, voids)
  }

  /** The search for `target_opening`, stopping at the first fills relation. */
  method FindOpening(fills: seq<Fills>, element: EntityId) returns (targetOpening: Option<EntityId>)
    ensures targetOpening == FirstFill(fills, element)
  {
    targetOpening := None;
    for t := 0 to |fills|
      invariant forall k :: 0 <= k < t ==> fills[k].relatedBuildingElement != element
    {
      if fills[t].relatedBuildingElement == element {
        targetOpening := Some(fills[t].relatingOpeningElement);
        FirstFillAt(fills, element, t);
        return;
      }
    }
  }

  lemma FirstFillAt(fills: seq<Fills>, element: EntityId, t: nat)
    requires t < |fills| && fills[t].relatedBuildingElement == element
    requires forall k :: 0 <= k < t ==> fills[k].relatedBuildingElement != element
    ensures FirstFill(fills, element) == Some(fills[t].relatingOpeningElement)
  {
    var r := FirstFill(fills, element);
    var i :| 0 <= i < |fills| && fills[i].relatedBuildingElement == element && fills[i].relatingOpeningElement == r.value
      && forall k :: 0 <= k < i ==> fills[k].relatedBuildingElement != element;
    assert i == t;
  }

  /** `find_hosting_wall` as the loop it is. */
  method FindHostingWall(voids: seq<Voids>, opening: EntityId) returns (wall: Option<Element>)
    ensures wall == HostingWall(voids, opening)
  {
    for t := 0 to |voids|
      invariant forall k :: 0 <= k < t ==> voids[k].relatedOpeningElement != opening
    {
      if voids[t].relatedOpeningElement == opening {
        HostingWallAt(voids, opening, t);
        return Some(voids[t].relatingBuildingElement);
      }
    }
    return None;
  }

  lemma HostingWallAt(voids: seq<Voids>, opening: EntityId, t: nat)
    requires t < |voids| && voids[t].relatedOpeningElement == opening
    requires forall k :: 0 <= k < t ==> voids[k].relatedOpeningElement != opening
    ensures HostingWall(voids, opening) == Some(voids[t].relatingBuildingElement)
  {
    var r := HostingWall(voids, opening);
    var i :| 0 <= i < |voids| && voids[i].relatedOpeningElement == opening && voids[i].relatingBuildingElement == r.value
      && forall k :: 0 <= k < i ==> voids[k].relatedOpeningElement != opening;
    assert i == t;
  }

  /** The nested loop filling `elements_to_walls`; a missing target storey
    * raises at `target_storey.ContainsElements`. */
  method ElementsToWalls(target: Option<seq<seq<Element>>>, fills: seq<Fills>, voids: seq<Voids>)
    returns (rows: Outcome<seq<seq<string>>>)
    ensures target.None? ==> rows == Raised(AttributeError)
    ensures target.Some? ==> rows == Returned(HostRows(target.value, fills, voids))
  {
    if target.None? {
      return Raised(AttributeError);
    }
    var contained := target.value;
    var elementsToWalls: seq<seq<string>> := [];
    for r := 0 to |contained|
      invariant elementsToWalls == HostRows(contained[..r], fills, voids)
    {
      HostRowsStep(contained, fills, voids, r);
      var rows := RelatedElementRows(contained[r], fills, voids);
      elementsToWalls := elementsToWalls + rows;
    }
    assert contained[..|contained|] == contained;
    return Returned(elementsToWalls);
  }

  lemma HostRowsStep(contained: seq<seq<Element>>, fills: seq<Fills>, voids: seq<Voids>, r: nat)
    requires r < |contained|
    ensures HostRows(contained[..r + 1], fills, voids) == HostRows(contained[..r], fills, voids) + ElementRows(contained[r], fills, voids)
  {
    assert contained[..r + 1][..r] == contained[..r];
  }

  lemma ElementRowsStep(es: seq<Element>, fills: seq<Fills>, voids: seq<Voids>, t: nat)
    requires t < |es|
    ensures ElementRows(es[..t + 1], fills, voids) == ElementRows(es[..t], fills, voids) + HostRow(es[t], fills, voids)
  {
    assert es[..t + 1][..t] == es[..t];
  }

  /** The inner loop over `rel.RelatedElements` of one containment relation. */
  method RelatedElementRows(relatedElements: seq<Element>, fills: seq<Fills>, voids: seq<Voids>)
    returns (rows: seq<seq<string>>)
    ensures rows == ElementRows(relatedElements, fills, voids)
  {
    rows := [];
    for t := 0 to |relatedElements|
      invariant rows == ElementRows(relatedElements[..t], fills, voids)
    {
      ElementRowsStep(relatedElements, fills, voids, t);
      var row := ElementHostRow(relatedElements[t], fills, voids);
      rows := rows + row;
    }
    assert relatedElements[..|relatedElements|] == relatedElements;
  }

  /** The body for one element: a door or window whose opening has a host
    * wall gives one row. */
  method ElementHostRow(element: Element, fills: seq<Fills>, voids: seq<Voids>) returns (row: seq<seq<string>>)
    ensures row == HostRow(element, fills, voids)
  {
    row := [];
    if IsA(element.entityType, "IfcDoor") || IsA(element.entityType, "IfcWindow") {
      var targetOpening := FindOpening(fills, element.id);
      if targetOpening.Some? {
        var hostingWall := FindHostingWall(voids, targetOpening.value);
        if hostingWall.Some? {
          row := [[element.entityType, element.globalId, hostingWall.value.globalId]];
        }
      }
    }
  }

  /** Every row names a door or window of the storey and the wall reached
    * through its first fills and first voids relations; an element with no
    * opening or no host gives no row. */
  lemma HostRowMeaning(e: Element, fills: seq<Fills>, voids: seq<Voids>)
    ensures |HostRow(e, fills, voids)| <= 1
    ensures HostRow(e, fills, voids) != [] <==>
      (IsA(e.entityType, "IfcDoor") || IsA(e.entityType, "IfcWindow"))
      && FirstFill(fills, e.id).Some? && HostingWall(voids, FirstFill(fills, e.id).value).Some?
    ensures HostRow(e, fills, voids) != [] ==>
      HostRow(e, fills, voids)[0] == [e.entityType, e.globalId, HostingWall(voids, FirstFill(fills, e.id).value).value.globalId]
  {
  }

  /** The rows are the host rows of the storey's elements, one relation after
    * the other, and there are at most as many as elements. */
  lemma {:induction false} HostRowsCount(contained: seq<seq<Element>>, fills: seq<Fills>, voids: seq<Voids>, r: nat)
    requires r <= |contained|
    ensures |HostRows(contained[..r], fills, voids)| <= ElementCount(contained[..r])
  {
    if r > 0 {
      assert contained[..r][..r - 1] == contained[..r - 1];
      HostRowsCount(contained, fills, voids, r - 1);
      ElementRowsCount(contained[r - 1], fills, voids, |contained[r - 1]|);
      assert contained[r - 1][..|contained[r - 1]|] == contained[r - 1];
    }
  }

  function ElementCount(contained: seq<seq<Element>>): nat
  {
    if |contained| == 0 then 0 else ElementCount(contained[..|contained| - 1]) + |contained[|contained| - 1]|
  }

  lemma {:induction false} ElementRowsCount(es: seq<Element>, fills: seq<Fills>, voids: seq<Voids>, t: nat)
    requires t <= |es|
    ensures |ElementRows(es[..t], fills, voids)| <= t
  {
    if t > 0 {
      assert es[..t][..t - 1] == es[..t - 1];
      ElementRowsCount(es, fills, voids, t - 1);
      HostRowMeaning(es[t - 1], fills, voids);
    }
  }
}
