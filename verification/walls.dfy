/**
 * Wall adjacency: which walls belong to the storey, which wall topologies are
 * scanned, the i<j scan over them with the touch test, the symmetric
 * `touching_walls_dict` built from the touching pairs, and its CSV rows.
 */
module WallAdjacency {
  import opened Common
  import opened Ifc
  import opened PyDict
  import opened TouchTest
  import Text

  // ---------------------------------------------------------------------
  // Storey wall filters over each wall's ContainedInStructure

  /** `n` copies of `x`. */
  function Repeat<T>(x: T, n: nat): (r: seq<T>)
    ensures |r| == n && forall k :: 0 <= k < n ==> r[k] == x
  {
    if n == 0 then [] else Repeat(x, n - 1) + [x]
  }

  lemma {:induction false} CountRepeat<T>(x: T, n: nat, y: T)
    ensures Count(Repeat(x, n), y) == if x == y then n else 0
  {
    if n > 0 {
      CountRepeat(x, n - 1, y);
      CountAppend(Repeat(x, n - 1), [x], y);
    }
  }

  /** How many of a wall's containing structures the test accepts. */
  function Matches(rels: seq<Structure>, accept: Structure -> bool): (n: nat)
    ensures n <= |rels|
    ensures n == 0 <==> forall k :: 0 <= k < |rels| ==> !accept(rels[k])
  {
    if |rels| == 0 then 0
    else
      var init := rels[..|rels| - 1];
      assert forall k :: 0 <= k < |init| ==> init[k] == rels[k];
      Matches(init, accept) + (if accept(rels[|rels| - 1]) then 1 else 0)
  }

  /** The GlobalIds the storey filter appends: each wall once per containing
    * structure the test accepts. */
  function StoreyWallGuids(walls: seq<Element>, accept: Structure -> bool): seq<string>
  {
    if |walls| == 0 then []
    else
      var w := walls[|walls| - 1];
      StoreyWallGuids(walls[..|walls| - 1], accept) + Repeat(w.globalId, Matches(w.containedIn, accept))
  }

  /** `rel.RelatingStructure == ifc_storey`: the very storey entity found by
    * name, or no wall at all when no storey was found. */
  function SameStoreyTest(target: Option<Structure>): Structure -> bool
  {
    (r: Structure) => SameStructure(Some(r), target)
  }

  /** `rel.RelatingStructure.Name == storey_name`. */
  function StoreyNameTest(storeyName: string): Structure -> bool
  {
    (r: Structure) => r.name == Some(storeyName)
  }

  /** The storey name one layer script compares with instead of the
    * configured one. */
  const HardCodedStorey: string := "Plan 10"

  method CollectStoreyWallGuids(walls: seq<Element>, accept: Structure -> bool) returns (guids: seq<string>)
    ensures guids == StoreyWallGuids(walls, accept)
  {
    guids := [];
    for i := 0 to |walls|
      invariant guids == StoreyWallGuids(walls[..i], accept)
    {
      assert walls[..i + 1][..i] == walls[..i];
      var wall := walls[i];
      ghost var before := guids;
      for j := 0 to |wall.containedIn|
        invariant guids == before + Repeat(wall.globalId, Matches(wall.containedIn[..j], accept))
      {
        assert wall.containedIn[..j + 1][..j] == wall.containedIn[..j];
        if accept(wall.containedIn[j]) {
          guids := guids + [wall.globalId];
        }
      }
      assert wall.containedIn[..|wall.containedIn|] == wall.containedIn;
    }
    assert walls[..|walls|] == walls;
  }

  /** A GlobalId is listed iff one of the walls carrying it has an accepted
    * containing structure. */
  lemma {:induction false} StoreyWallGuidsMembers(walls: seq<Element>, accept: Structure -> bool, g: string)
    ensures g in StoreyWallGuids(walls, accept) <==>
      exists k :: 0 <= k < |walls| && walls[k].globalId == g && Matches(walls[k].containedIn, accept) > 0
  {
    if |walls| > 0 {
      var init := walls[..|walls| - 1];
      var w := walls[|walls| - 1];
      StoreyWallGuidsMembers(init, accept, g);
      assert forall k :: 0 <= k < |init| ==> init[k] == walls[k];
      var tail := Repeat(w.globalId, Matches(w.containedIn, accept));
      assert g in tail <==> w.globalId == g && Matches(w.containedIn, accept) > 0 by {
        if g in tail { assert g == w.globalId; }
        if w.globalId == g && Matches(w.containedIn, accept) > 0 { assert tail[0] == g; }
      }
    }
  }

  /** With distinct GlobalIds a wall is listed exactly once per accepted
    * containing structure, so a wall contained twice in the storey is listed
    * twice. */
  lemma {:induction false} StoreyWallGuidsCount(walls: seq<Element>, accept: Structure -> bool, k: nat)
    requires k < |walls|
    requires forall a, b :: 0 <= a < b < |walls| ==> walls[a].globalId != walls[b].globalId
    ensures Count(StoreyWallGuids(walls, accept), walls[k].globalId) == Matches(walls[k].containedIn, accept)
  {
    var init := walls[..|walls| - 1];
    var w := walls[|walls| - 1];
    var g := walls[k].globalId;
    CountAppend(StoreyWallGuids(init, accept), Repeat(w.globalId, Matches(w.containedIn, accept)), g);
    CountRepeat(w.globalId, Matches(w.containedIn, accept), g);
    if k < |walls| - 1 {
      StoreyWallGuidsCount(init, accept, k);
      assert init[k] == walls[k];
    } else {
      StoreyWallGuidsMembers(init, accept, g);
      assert g !in StoreyWallGuids(init, accept);
    }
  }

  /** When no storey of that name was found, no wall is selected. */
  lemma {:induction false} NoStoreyNoWalls(walls: seq<Element>)
    ensures StoreyWallGuids(walls, SameStoreyTest(None)) == []
  {
    if |walls| > 0 {
      NoStoreyNoWalls(walls[..|walls| - 1]);
      var w := walls[|walls| - 1];
      assert forall k :: 0 <= k < |w.containedIn| ==> !SameStoreyTest(None)(w.containedIn[k]);
    }
  }

  /** The hard-coded filter ignores the configured storey: a wall contained
    * only in a storey of another name is not selected. */
  lemma HardCodedIgnoresConfig(wall: Element, storeyName: string)
    requires storeyName != HardCodedStorey
    requires |wall.containedIn| == 1 && wall.containedIn[0].name == Some(storeyName)
    ensures StoreyWallGuids([wall], StoreyNameTest(storeyName)) == [wall.globalId]
    ensures StoreyWallGuids([wall], StoreyNameTest(HardCodedStorey)) == []
  {
    assert [wall][..0] == [];
    assert Repeat(wall.globalId, 1) == [wall.globalId];
  }

  // ---------------------------------------------------------------------
  // Storey membership by the first containment relation listing the wall

  /** The first IfcRelContainedInSpatialStructure, in `by_type` order, whose
    * RelatedElements hold the element. */
  function FirstContaining(rels: seq<Containment>, id: EntityId): (r: Option<Containment>)
    ensures r.None? <==> forall k :: 0 <= k < |rels| ==> id !in rels[k].relatedElements
    ensures r.Some? ==>
      exists k :: 0 <= k < |rels| && rels[k] == r.value && id in r.value.relatedElements && forall k' :: 0 <= k' < k ==> id !in rels[k'].relatedElements
  {
    if |rels| == 0 then None
    else if id in rels[0].relatedElements then Some(rels[0])
    else
      var r := FirstContaining(rels[1..], id);
      assert forall k :: 1 <= k < |rels| ==> rels[k] == rels[1..][k - 1];
      assert r.Some? ==>
        exists k :: 1 <= k < |rels| && rels[k] == r.value && id in r.value.relatedElements && forall k' :: 0 <= k' < k ==> id !in rels[k'].relatedElements;
      r
  }

  lemma FirstContainingAt(rels: seq<Containment>, id: EntityId, j: nat)
    requires j < |rels| && id in rels[j].relatedElements
    requires forall k :: 0 <= k < j ==> id !in rels[k].relatedElements
    ensures FirstContaining(rels, id) == Some(rels[j])
  {
  }

  /** The element's first containing relation names the storey; the
    * relations after it are not looked at. */
  predicate InStoreyByFirstRelation(rels: seq<Containment>, id: EntityId, storeyName: string)
  {
    match FirstContaining(rels, id)
    case None => false
    case Some(rel) => rel.relatingStructure.name == Some(storeyName)
  }

  function FirstRelationTest(rels: seq<Containment>, storeyName: string): Element -> bool
  {
    (w: Element) => InStoreyByFirstRelation(rels, w.id, storeyName)
  }

  function ElementGuids(es: seq<Element>): (guids: seq<string>)
    ensures |guids| == |es| && forall k :: 0 <= k < |es| ==> guids[k] == es[k].globalId
  {
    if |es| == 0 then [] else ElementGuids(es[..|es| - 1]) + [es[|es| - 1].globalId]
  }

  /** The inner loop of `wall_guids_in_storey`: it breaks at the first
    * relation listing the element. */
  method FindFirstContaining(rels: seq<Containment>, id: EntityId) returns (r: Option<Containment>)
    ensures r == FirstContaining(rels, id)
  {
    var j := 0;
    while j < |rels|
      invariant 0 <= j <= |rels|
      invariant forall k :: 0 <= k < j ==> id !in rels[k].relatedElements
    {
      if id in rels[j].relatedElements {
        FirstContainingAt(rels, id, j);
        return Some(rels[j]);
      }
      j := j + 1;
    }
    return None;
  }

  /** `wall_guids_in_storey`: a wall is appended when the storey of its first
    * containing relation has the configured name. */
  method WallGuidsInStorey(walls: seq<Element>, rels: seq<Containment>, storeyName: string) returns (guids: seq<string>)
    ensures guids == ElementGuids(Keep(walls, FirstRelationTest(rels, storeyName)))
  {
    guids := [];
    for i := 0 to |walls|
      invariant guids == ElementGuids(Keep(walls[..i], FirstRelationTest(rels, storeyName)))
    {
      var wall := walls[i];
      ghost var kept := Keep(walls[..i], FirstRelationTest(rels, storeyName));
      KeepStep(walls, FirstRelationTest(rels, storeyName), i);
      var rel := FindFirstContaining(rels, wall.id);
      if rel.Some? && rel.value.relatingStructure.name == Some(storeyName) {
        ElementGuidsSnoc(kept, wall);
        guids := guids + [wall.globalId];
      } else {
        assert kept + [] == kept;
      }
    }
    assert walls[..|walls|] == walls;
  }

  lemma ElementGuidsSnoc(es: seq<Element>, e: Element)
    ensures ElementGuids(es + [e]) == ElementGuids(es) + [e.globalId]
  {
    assert (es + [e])[..|es|] == es;
  }

  /** Only the first relation listing the wall counts: a wall listed first
    * under another storey and then under the target one is not in the
    * storey. */
  lemma LaterRelationIgnored(wall: Element, other: Structure, target: Structure, storeyName: string)
    requires target.name == Some(storeyName) && other.name != Some(storeyName)
    ensures !InStoreyByFirstRelation([Containment(other, [wall.id]), Containment(target, [wall.id])], wall.id, storeyName)
  {
  }

  // ---------------------------------------------------------------------
  // Which topologies are scanned

  /** A topology whose "IFC_guid" value is one of the storey's wall guids. */
  function GuidListed<T>(guidOf: T -> Option<string>, listed: seq<string>): T -> bool
  {
    t => guidOf(t).Some? && guidOf(t).value in listed
  }

  method SelectStoreyTopologies<T>(topos: seq<T>, guidOf: T -> Option<string>, listed: seq<string>)
    returns (selected: seq<T>)
    ensures selected == Keep(topos, GuidListed(guidOf, listed))
  {
    selected := [];
    for i := 0 to |topos|
      invariant selected == Keep(topos[..i], GuidListed(guidOf, listed))
    {
      assert topos[..i + 1][..i] == topos[..i];
      var g := guidOf(topos[i]);
      if g.Some? && g.value in listed {
        selected := selected + [topos[i]];
      }
    }
    assert topos[..|topos|] == topos;
  }

  /** A topology is kept iff its guid is listed; the kept ones keep their
    * order. */
  lemma SelectedTopologies<T>(topos: seq<T>, guidOf: T -> Option<string>, listed: seq<string>)
    ensures forall t :: t in Keep(topos, GuidListed(guidOf, listed)) <==>
      t in topos && guidOf(t).Some? && guidOf(t).value in listed
    ensures IsSubsequence(Keep(topos, GuidListed(guidOf, listed)), topos)
  {
    KeepMembers(topos, GuidListed(guidOf, listed));
    KeepSubsequence(topos, GuidListed(guidOf, listed));
  }

  /** A wall as the layer loop leaves it: its GlobalId and the cells built
    * for its layers. */
  datatype WallCells<C> = WallCells(guid: string, cells: seq<C>)

  /** `if cells != []`, and the cell complex built from them exists (the
    * `element is not None` comprehension). */
  function HasCells<C>(built: seq<C> -> bool): WallCells<C> -> bool
  {
    (w: WallCells<C>) => w.cells != [] && built(w.cells)
  }

  /** The last wall of that GlobalId with cells: `dic_walls[wall_guid] = cells`. */
  function LastWithCells<C>(walls: seq<WallCells<C>>, g: string): Option<seq<C>>
  {
    if |walls| == 0 then None
    else
      var w := walls[|walls| - 1];
      if w.guid == g && w.cells != [] then Some(w.cells) else LastWithCells(walls[..|walls| - 1], g)
  }

  /** The gate after each wall's layer loop: walls without cells enter
    * neither `dic_walls` nor the scanned topologies. */
  method GateWallCells<C>(walls: seq<WallCells<C>>, built: seq<C> -> bool)
    returns (dicWalls: Dict<string, seq<C>>, topoWalls: seq<WallCells<C>>)
    ensures PyDict.Valid(dicWalls)
    ensures forall g :: Get(dicWalls, g) == LastWithCells(walls, g)
    ensures topoWalls == Keep(walls, HasCells(built))
  {
    dicWalls := [];
    topoWalls := [];
    for i := 0 to |walls|
      invariant PyDict.Valid(dicWalls)
      invariant forall g :: Get(dicWalls, g) == LastWithCells(walls[..i], g)
      invariant topoWalls == Keep(walls[..i], HasCells(built))
    {
      var w := walls[i];
      LastWithCellsStep(walls, i);
      KeepStep(walls, HasCells(built), i);
      if w.cells != [] {
        PutValid(dicWalls, w.guid, w.cells);
        dicWalls := Put(dicWalls, w.guid, w.cells);
        if built(w.cells) {
          topoWalls := topoWalls + [w];
        }
      }
    }
    assert walls[..|walls|] == walls;
  }

  lemma LastWithCellsStep<C>(walls: seq<WallCells<C>>, i: nat)
    requires i < |walls|
    ensures forall g ::
      LastWithCells(walls[..i + 1], g) == (if walls[i].guid == g && walls[i].cells != [] then Some(walls[i].cells) else LastWithCells(walls[..i], g))
  {
    var ws := walls[..i + 1];
    assert ws[|ws| - 1] == walls[i] && ws[..|ws| - 1] == walls[..i];
    forall g ensures LastWithCells(ws, g) ==
      (if walls[i].guid == g && walls[i].cells != [] then Some(walls[i].cells) else LastWithCells(walls[..i], g))
    {
      assert LastWithCells(ws, g) == (if ws[|ws| - 1].guid == g && ws[|ws| - 1].cells != [] then Some(ws[|ws| - 1].cells) else LastWithCells(ws[..|ws| - 1], g));
    }
  }

  /** Every scanned wall has at least one cell. */
  lemma ScannedWallsHaveCells<C>(walls: seq<WallCells<C>>, built: seq<C> -> bool)
    ensures forall w :: w in Keep(walls, HasCells(built)) ==> w.cells != [] && w in walls
  {
    KeepMembers(walls, HasCells(built));
  }

  // ---------------------------------------------------------------------
  // The i<j scan

  function PairEntry(o: Outcome<bool>, i: nat, j: nat): Outcome<seq<(nat, nat)>>
  {
    match o
    case Raised(e) => Raised(e)
    case Returned(b) => Returned(if b then [(i, j)] else [])
  }

  /** The pairs (i, j) with i < j < m found touching, in scan order. */
  function RowPairs<C>(cells: seq<seq<C>>, step: (C, C) -> Step, i: nat, m: nat): Outcome<seq<(nat, nat)>>
    requires i < |cells| && m <= |cells|
    decreases m
  {
    if m <= i + 1 then Returned([])
    else Then(RowPairs(cells, step, i, m - 1), PairEntry(PairScan(cells[i], cells[m - 1], step), i, m - 1))
  }

  /** `touching_walls` after the first n rows of the scan. */
  function ScanPairs<C>(cells: seq<seq<C>>, step: (C, C) -> Step, n: nat): Outcome<seq<(nat, nat)>>
    requires n <= |cells|
  {
    if n == 0 then Returned([]) else Then(ScanPairs(cells, step, n - 1), RowPairs(cells, step, n - 1, |cells|))
  }

  lemma {:induction false} RowPairsRaisedStays<C>(cells: seq<seq<C>>, step: (C, C) -> Step, i: nat, m: nat, e: PyException)
    requires i < |cells| && m <= |cells| && RowPairs(cells, step, i, m) == Raised(e)
    ensures RowPairs(cells, step, i, |cells|) == Raised(e)
    decreases |cells| - m
  {
    if m < |cells| {
      RowPairsRaisedStays(cells, step, i, m + 1, e);
    }
  }

  lemma {:induction false} ScanPairsRaisedStays<C>(cells: seq<seq<C>>, step: (C, C) -> Step, n: nat, e: PyException)
    requires n <= |cells| && ScanPairs(cells, step, n) == Raised(e)
    ensures ScanPairs(cells, step, |cells|) == Raised(e)
    decreases |cells| - n
  {
    if n < |cells| {
      ScanPairsRaisedStays(cells, step, n + 1, e);
    }
  }

  /** The scan over the topologies of the storey: for i, for j > i, the touch
    * test on their cells; a test that raises ends the scan. */
  method FindTouchingPairs<C>(cells: seq<seq<C>>, step: (C, C) -> Step) returns (touching: Outcome<seq<(nat, nat)>>)
    ensures touching == ScanPairs(cells, step, |cells|)
  {
    var pairs: seq<(nat, nat)> := [];
    for i := 0 to |cells|
      invariant ScanPairs(cells, step, i) == Returned(pairs)
    {
      var row := ScanRow(cells, step, i);
      assert ScanPairs(cells, step, i + 1) == Then(Returned(pairs), row);
      if row.Raised? {
        ScanPairsRaisedStays(cells, step, i + 1, row.exc);
        return Raised(row.exc);
      }
      pairs := pairs + row.value;
    }
    return Returned(pairs);
  }

  /** The inner loop `for j in range(i + 1, n)` for one i. */
  method ScanRow<C>(cells: seq<seq<C>>, step: (C, C) -> Step, i: nat) returns (row: Outcome<seq<(nat, nat)>>)
    requires i < |cells|
    ensures row == RowPairs(cells, step, i, |cells|)
  {
    var pairs: seq<(nat, nat)> := [];
    for j := i + 1 to |cells|
      invariant RowPairs(cells, step, i, j) == Returned(pairs)
    {
      var t := ScanCellPairs(cells[i], cells[j], step);
      assert RowPairs(cells, step, i, j + 1) == Then(Returned(pairs), PairEntry(t, i, j));
      if t.Raised? {
        RowPairsRaisedStays(cells, step, i, j + 1, t.exc);
        return Raised(t.exc);
      }
      if t.value {
        pairs := pairs + [(i, j)];
      } else {
        assert pairs + [] == pairs;
      }
    }
    return Returned(pairs);
  }

  /** Scan order: lexicographically increasing, so no pair occurs twice. */
  predicate Ascending(ps: seq<(nat, nat)>)
  {
    forall a, b :: 0 <= a < b < |ps| ==> ps[a].0 < ps[b].0 || (ps[a].0 == ps[b].0 && ps[a].1 < ps[b].1)
  }

  /** One step of a row that returned: the row before it returned too, and
    * the pair (i, m - 1) is appended exactly when its test returned True. */
  lemma RowPairsLast<C>(cells: seq<seq<C>>, step: (C, C) -> Step, i: nat, m: nat)
    requires i + 1 < m <= |cells| && RowPairs(cells, step, i, m).Returned?
    ensures RowPairs(cells, step, i, m - 1).Returned?
    ensures PairScan(cells[i], cells[m - 1], step).Returned?
    ensures RowPairs(cells, step, i, m).value == RowPairs(cells, step, i, m - 1).value
      + (if PairScan(cells[i], cells[m - 1], step).value then [(i, m - 1)] else [])
  {
  }

  lemma {:induction false} RowPairsShape<C>(cells: seq<seq<C>>, step: (C, C) -> Step, i: nat, m: nat)
    requires i < |cells| && m <= |cells| && RowPairs(cells, step, i, m).Returned?
    ensures Ascending(RowPairs(cells, step, i, m).value)
    ensures forall p :: p in RowPairs(cells, step, i, m).value <==>
      p.0 == i && i < p.1 < m && PairScan(cells[i], cells[p.1], step) == Returned(true)
  {
    RowPairsMembers(cells, step, i, m);
    RowPairsAscending(cells, step, i, m);
  }

  lemma {:induction false} RowPairsMembers<C>(cells: seq<seq<C>>, step: (C, C) -> Step, i: nat, m: nat)
    requires i < |cells| && m <= |cells| && RowPairs(cells, step, i, m).Returned?
    ensures forall p :: p in RowPairs(cells, step, i, m).value <==>
      p.0 == i && i < p.1 < m && PairScan(cells[i], cells[p.1], step) == Returned(true)
    decreases m
  {
    if m > i + 1 {
      RowPairsLast(cells, step, i, m);
      RowPairsMembers(cells, step, i, m - 1);
    }
  }

  lemma {:induction false} RowPairsAscending<C>(cells: seq<seq<C>>, step: (C, C) -> Step, i: nat, m: nat)
    requires i < |cells| && m <= |cells| && RowPairs(cells, step, i, m).Returned?
    ensures Ascending(RowPairs(cells, step, i, m).value)
    ensures forall p :: p in RowPairs(cells, step, i, m).value ==> p.0 == i && p.1 < m
    decreases m
  {
    if m > i + 1 {
      RowPairsLast(cells, step, i, m);
      RowPairsAscending(cells, step, i, m - 1);
      var xs := RowPairs(cells, step, i, m - 1).value;
      var ys := RowPairs(cells, step, i, m).value;
      if ys != xs {
        assert ys == xs + [(i, m - 1)];
        assert forall a :: 0 <= a < |xs| ==> xs[a] in xs;
      }
    }
  }

  /** Each touching pair (i, j) with i < j is listed exactly once and no
    * wall is paired with itself; when the scan does not raise it lists
    * exactly the pairs whose test returned True. */
  lemma ScanPairsShape<C>(cells: seq<seq<C>>, step: (C, C) -> Step, n: nat)
    requires n <= |cells| && ScanPairs(cells, step, n).Returned?
    ensures Ascending(ScanPairs(cells, step, n).value)
    ensures Distinct(ScanPairs(cells, step, n).value)
    ensures forall p :: p in ScanPairs(cells, step, n).value <==>
      p.0 < n && p.0 < p.1 < |cells| && PairScan(cells[p.0], cells[p.1], step) == Returned(true)
  {
    ScanPairsMembers(cells, step, n);
    ScanPairsAscending(cells, step, n);
  }

  /** The row n - 1 is appended to the rows before it. */
  lemma ScanPairsLast<C>(cells: seq<seq<C>>, step: (C, C) -> Step, n: nat)
    requires 0 < n <= |cells| && ScanPairs(cells, step, n).Returned?
    ensures ScanPairs(cells, step, n - 1).Returned? && RowPairs(cells, step, n - 1, |cells|).Returned?
    ensures ScanPairs(cells, step, n).value ==
      ScanPairs(cells, step, n - 1).value + RowPairs(cells, step, n - 1, |cells|).value
  {
  }

  lemma {:induction false} ScanPairsMembers<C>(cells: seq<seq<C>>, step: (C, C) -> Step, n: nat)
    requires n <= |cells| && ScanPairs(cells, step, n).Returned?
    ensures forall p :: p in ScanPairs(cells, step, n).value <==>
      p.0 < n && p.0 < p.1 < |cells| && PairScan(cells[p.0], cells[p.1], step) == Returned(true)
  {
    if n > 0 {
      ScanPairsLast(cells, step, n);
      ScanPairsMembers(cells, step, n - 1);
      RowPairsMembers(cells, step, n - 1, |cells|);
    }
  }

  lemma {:induction false} ScanPairsAscending<C>(cells: seq<seq<C>>, step: (C, C) -> Step, n: nat)
    requires n <= |cells| && ScanPairs(cells, step, n).Returned?
    ensures Ascending(ScanPairs(cells, step, n).value)
    ensures forall p :: p in ScanPairs(cells, step, n).value ==> p.0 < n
  {
    if n > 0 {
      ScanPairsLast(cells, step, n);
      ScanPairsAscending(cells, step, n - 1);
      RowPairsAscending(cells, step, n - 1, |cells|);
      AscendingConcat(ScanPairs(cells, step, n - 1).value, RowPairs(cells, step, n - 1, |cells|).value, n - 1);
    }
  }

  /** Rows before row i, then row i: still ascending. */
  lemma AscendingConcat(xs: seq<(nat, nat)>, ys: seq<(nat, nat)>, i: nat)
    requires Ascending(xs) && Ascending(ys)
    requires forall p :: p in xs ==> p.0 < i
    requires forall p :: p in ys ==> p.0 == i
    ensures Ascending(xs + ys)
  {
    assert forall a :: 0 <= a < |xs| ==> xs[a] in xs;
    assert forall b :: 0 <= b < |ys| ==> ys[b] in ys;
  }

  /** When no test raises, the scan returns. */
  lemma {:induction false} ScanPairsReturns<C>(cells: seq<seq<C>>, step: (C, C) -> Step, n: nat)
    requires n <= |cells|
    requires forall a, b :: 0 <= a < b < |cells| ==> PairScan(cells[a], cells[b], step).Returned?
    ensures ScanPairs(cells, step, n).Returned?
  {
    if n > 0 {
      ScanPairsReturns(cells, step, n - 1);
      RowPairsReturn(cells, step, n - 1, |cells|);
    }
  }

  lemma {:induction false} RowPairsReturn<C>(cells: seq<seq<C>>, step: (C, C) -> Step, i: nat, m: nat)
    requires i < |cells| && m <= |cells|
    requires forall b :: i < b < m ==> PairScan(cells[i], cells[b], step).Returned?
    ensures RowPairs(cells, step, i, m).Returned?
    decreases m
  {
    if m > i + 1 {
      RowPairsReturn(cells, step, i, m - 1);
    }
  }

  // ---------------------------------------------------------------------
  // touching_walls_dict

  predicate PairsInRange(n: nat, pairs: seq<(nat, nat)>)
  {
    forall t :: 0 <= t < |pairs| ==> pairs[t].0 < n && pairs[t].1 < n
  }

  /** The list `touching_walls_dict[g]` ends with: for every pair, in order,
    * the guid of j if i has guid g, then the guid of i if j has guid g. */
  function Neighbours(guids: seq<string>, pairs: seq<(nat, nat)>, g: string): seq<string>
    requires PairsInRange(|guids|, pairs)
  {
    if |pairs| == 0 then []
    else
      var p := pairs[|pairs| - 1];
      Neighbours(guids, pairs[..|pairs| - 1], g)
        + (if guids[p.0] == g then [guids[p.1]] else [])
        + (if guids[p.1] == g then [guids[p.0]] else [])
  }

  /** `{index_to_guid[i]: [] for i in range(len(topologies_in_storey))}`. */
  function EmptyNeighbourLists(guids: seq<string>): (d: Dict<string, seq<string>>)
    ensures PyDict.Valid(d)
    ensures PyDict.Keys(d) == FirstOccurrences(guids)
    ensures forall g :: Get(d, g) == if g in guids then Some([]) else None
  {
    if |guids| == 0 then []
    else
      var init := guids[..|guids| - 1];
      var g := guids[|guids| - 1];
      var d := EmptyNeighbourLists(init);
      assert forall x :: x in guids <==> x in init || x == g;
      HasKeyInKeys(d, g);
      PutValid(d, g, []);
      PutKeys(d, g, []);
      Put(d, g, [])
  }

  /** The loop over `touching_walls`: both ends of each pair get the other's
    * guid appended. */
  method BuildTouchingDict(guids: seq<string>, pairs: seq<(nat, nat)>) returns (d: Dict<string, seq<string>>)
    requires PairsInRange(|guids|, pairs)
    ensures PyDict.Valid(d)
    ensures PyDict.Keys(d) == FirstOccurrences(guids)
    ensures forall g :: Get(d, g) == if g in guids then Some(Neighbours(guids, pairs, g)) else None
  {
    d := EmptyNeighbourLists(guids);
    EmptyNeighbourDict(guids, pairs);
    for t := 0 to |pairs|
      invariant PairsInRange(|guids|, pairs[..t])
      invariant NeighbourDict(d, guids, pairs[..t])
    {
      var (i, j) := pairs[t];
      AppendPairKeeps(d, guids, pairs, t);
      d := AddPair(d, guids[i], guids[j]);
    }
    assert pairs[..|pairs|] == pairs;
  }

  lemma EmptyNeighbourDict(guids: seq<string>, pairs: seq<(nat, nat)>)
    ensures PairsInRange(|guids|, pairs[..0])
    ensures NeighbourDict(EmptyNeighbourLists(guids), guids, pairs[..0])
  {
    assert pairs[..0] == [];
  }

  /** The dict after some of the pairs were appended. */
  ghost predicate NeighbourDict(d: Dict<string, seq<string>>, guids: seq<string>, pairs: seq<(nat, nat)>)
    requires PairsInRange(|guids|, pairs)
  {
    PyDict.Valid(d) && PyDict.Keys(d) == FirstOccurrences(guids)
    && forall g :: Get(d, g) == if g in guids then Some(Neighbours(guids, pairs, g)) else None
  }

  /** `d[a].append(b)` followed by `d[b].append(a)`. */
  function AddPair(d: Dict<string, seq<string>>, a: string, b: string): Dict<string, seq<string>>
    requires HasKey(d, a) && HasKey(d, b)
  {
    var d1 := Put(d, a, Get(d, a).value + [b]);
    PutHasKey(d, a, Get(d, a).value + [b], b);
    Put(d1, b, Get(d1, b).value + [a])
  }

  lemma AppendPairKeeps(d: Dict<string, seq<string>>, guids: seq<string>, pairs: seq<(nat, nat)>, t: nat)
    requires PairsInRange(|guids|, pairs) && t < |pairs|
    requires PairsInRange(|guids|, pairs[..t]) && NeighbourDict(d, guids, pairs[..t])
    ensures PairsInRange(|guids|, pairs[..t + 1])
    ensures HasKey(d, guids[pairs[t].0]) && HasKey(d, guids[pairs[t].1])
    ensures NeighbourDict(AddPair(d, guids[pairs[t].0], guids[pairs[t].1]), guids, pairs[..t + 1])
  {
    var gi, gj := guids[pairs[t].0], guids[pairs[t].1];
    assert pairs[..t + 1][..t] == pairs[..t];
    assert PairsInRange(|guids|, pairs[..t + 1]) by {
      assert forall u :: 0 <= u < t + 1 ==> pairs[..t + 1][u] == pairs[u];
    }
    assert HasKey(d, gi) && HasKey(d, gj) by {
      assert Get(d, gi).Some? && Get(d, gj).Some?;
    }
    AddPairValid(d, gi, gj);
    forall g ensures Get(AddPair(d, gi, gj), g) == if g in guids then Some(Neighbours(guids, pairs[..t + 1], g)) else None {
      AppendPairAt(d, guids, pairs, t, g);
    }
  }

  lemma AddPairValid(d: Dict<string, seq<string>>, a: string, b: string)
    requires PyDict.Valid(d) && HasKey(d, a) && HasKey(d, b)
    ensures PyDict.Valid(AddPair(d, a, b)) && PyDict.Keys(AddPair(d, a, b)) == PyDict.Keys(d)
  {
    var d1 := Put(d, a, Get(d, a).value + [b]);
    PutValid(d, a, Get(d, a).value + [b]);
    PutKeys(d, a, Get(d, a).value + [b]);
    PutHasKey(d, a, Get(d, a).value + [b], b);
    PutValid(d1, b, Get(d1, b).value + [a]);
    PutKeys(d1, b, Get(d1, b).value + [a]);
  }

  lemma AppendPairAt(d: Dict<string, seq<string>>, guids: seq<string>, pairs: seq<(nat, nat)>, t: nat, g: string)
    requires PairsInRange(|guids|, pairs) && t < |pairs| && PairsInRange(|guids|, pairs[..t])
    requires Get(d, guids[pairs[t].0]) == Some(Neighbours(guids, pairs[..t], guids[pairs[t].0]))
    requires Get(d, guids[pairs[t].1]) == Some(Neighbours(guids, pairs[..t], guids[pairs[t].1]))
    requires Get(d, g) == if g in guids then Some(Neighbours(guids, pairs[..t], g)) else None
    ensures PairsInRange(|guids|, pairs[..t + 1])
    ensures Get(AddPair(d, guids[pairs[t].0], guids[pairs[t].1]), g) ==
      if g in guids then Some(Neighbours(guids, pairs[..t + 1], g)) else None
  {
    var gi, gj := guids[pairs[t].0], guids[pairs[t].1];
    NeighboursStep(guids, pairs, t, g);
    AddPairGet(d, gi, gj, g);
  }

  /** Reading the dict back after both appends. */
  lemma AddPairGet(d: Dict<string, seq<string>>, a: string, b: string, g: string)
    requires HasKey(d, a) && HasKey(d, b)
    ensures Get(AddPair(d, a, b), g) == if Get(d, g).None? then None
      else Some(Get(d, g).value + (if a == g then [b] else []) + (if b == g then [a] else []))
  {
    var v1 := Get(d, a).value + [b];
    PutGet(d, a, v1, b);
    var v2 := Get(Put(d, a, v1), b).value + [a];
    PutPutGet(d, a, v1, b, v2, g);
    if Get(d, g).Some? {
      AppendedLists(Get(d, g).value, a, b, g);
    }
  }

  /** The list at g after both appends, case by case. */
  lemma AppendedLists(x: seq<string>, a: string, b: string, g: string)
    ensures x + (if a == g then [b] else []) + (if b == g then [a] else []) ==
      if g == b && g == a then x + [b] + [a] else if g == b then x + [a] else if g == a then x + [b] else x
  {
    if g != a && g != b {
      assert x + [] + [] == x;
    } else if g != a {
      assert x + [] + [a] == x + [a];
    } else if g != b {
      assert x + [b] + [] == x + [b];
    }
  }

  lemma NeighboursStep(guids: seq<string>, pairs: seq<(nat, nat)>, t: nat, g: string)
    requires PairsInRange(|guids|, pairs) && t < |pairs|
    ensures PairsInRange(|guids|, pairs[..t]) && PairsInRange(|guids|, pairs[..t + 1])
    ensures Neighbours(guids, pairs[..t + 1], g) == Neighbours(guids, pairs[..t], g)
      + (if guids[pairs[t].0] == g then [guids[pairs[t].1]] else [])
      + (if guids[pairs[t].1] == g then [guids[pairs[t].0]] else [])
  {
    assert pairs[..t + 1][..t] == pairs[..t];
  }

  /** Symmetry: h occurs in the list of g as often as g occurs in the list of h. */
  lemma {:induction false} NeighboursSymmetric(guids: seq<string>, pairs: seq<(nat, nat)>, g: string, h: string)
    requires PairsInRange(|guids|, pairs)
    ensures Count(Neighbours(guids, pairs, g), h) == Count(Neighbours(guids, pairs, h), g)
  {
    if |pairs| > 0 {
      var init := pairs[..|pairs| - 1];
      assert PairsInRange(|guids|, init);
      NeighboursSymmetric(guids, init, g, h);
      NeighboursCountLast(guids, pairs, g, h);
      NeighboursCountLast(guids, pairs, h, g);
    }
  }

  /** How often h is added to the list of g by the last pair. */
  lemma NeighboursCountLast(guids: seq<string>, pairs: seq<(nat, nat)>, g: string, h: string)
    requires PairsInRange(|guids|, pairs) && |pairs| > 0
    ensures PairsInRange(|guids|, pairs[..|pairs| - 1])
    ensures var p := pairs[|pairs| - 1];
      Count(Neighbours(guids, pairs, g), h) == Count(Neighbours(guids, pairs[..|pairs| - 1], g), h)
        + (if guids[p.0] == g && guids[p.1] == h then 1 else 0)
        + (if guids[p.1] == g && guids[p.0] == h then 1 else 0)
  {
    var init := pairs[..|pairs| - 1];
    var p := pairs[|pairs| - 1];
    assert PairsInRange(|guids|, init);
    var a := if guids[p.0] == g then [guids[p.1]] else [];
    var b := if guids[p.1] == g then [guids[p.0]] else [];
    CountAppend(Neighbours(guids, init, g) + a, b, h);
    CountAppend(Neighbours(guids, init, g), a, h);
  }

  /** Every touching pair is recorded on both sides. */
  lemma {:induction false} PairListedBothWays(guids: seq<string>, pairs: seq<(nat, nat)>, t: nat)
    requires PairsInRange(|guids|, pairs) && t < |pairs|
    ensures guids[pairs[t].1] in Neighbours(guids, pairs, guids[pairs[t].0])
    ensures guids[pairs[t].0] in Neighbours(guids, pairs, guids[pairs[t].1])
  {
    if t < |pairs| - 1 {
      var init := pairs[..|pairs| - 1];
      assert PairsInRange(|guids|, init) && init[t] == pairs[t];
      PairListedBothWays(guids, init, t);
    }
  }

  /** With distinct guids and no pair (i, i), no wall lists itself. */
  lemma {:induction false} NoSelfNeighbour(guids: seq<string>, pairs: seq<(nat, nat)>, g: string)
    requires PairsInRange(|guids|, pairs)
    requires forall a, b :: 0 <= a < b < |guids| ==> guids[a] != guids[b]
    requires forall t :: 0 <= t < |pairs| ==> pairs[t].0 != pairs[t].1
    ensures g !in Neighbours(guids, pairs, g)
  {
    if |pairs| > 0 {
      var init := pairs[..|pairs| - 1];
      assert PairsInRange(|guids|, init);
      assert forall t :: 0 <= t < |init| ==> init[t] == pairs[t];
      NoSelfNeighbour(guids, init, g);
      var p := pairs[|pairs| - 1];
      assert guids[p.0] != guids[p.1] by {
        if p.0 < p.1 { } else { assert p.1 < p.0; }
      }
    }
  }

  /** The whole wall pipeline on scan results: the dict has a key for every
    * scanned wall, is symmetric, and, with distinct guids, has no self-edge. */
  lemma ScannedDictProperties<C>(cells: seq<seq<C>>, step: (C, C) -> Step, guids: seq<string>, g: string, h: string)
    requires |guids| == |cells| && ScanPairs(cells, step, |cells|).Returned?
    requires forall a, b :: 0 <= a < b < |guids| ==> guids[a] != guids[b]
    ensures PairsInRange(|guids|, ScanPairs(cells, step, |cells|).value)
    ensures PairsInRange(|guids|, ScanPairs(cells, step, |cells|).value) ==>
      Count(Neighbours(guids, ScanPairs(cells, step, |cells|).value, g), h) ==
      Count(Neighbours(guids, ScanPairs(cells, step, |cells|).value, h), g)
      && g !in Neighbours(guids, ScanPairs(cells, step, |cells|).value, g)
  {
    var pairs := ScanPairs(cells, step, |cells|).value;
    ScanPairsShape(cells, step, |cells|);
    assert forall t :: 0 <= t < |pairs| ==> pairs[t] in pairs;
    NeighboursSymmetric(guids, pairs, g, h);
    NoSelfNeighbour(guids, pairs, g);
  }
}
