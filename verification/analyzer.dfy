/**
 * IfcWallAnalyzer: the per-wall report over the wall's shape aspects (one
 * aspect per material layer). Two versions exist: the plain analyzer only
 * collects layer details and folds their representation types; the one
 * under Tests also transforms the profile points by the product of the
 * `get_local_placement` matrices along the wall's placement chain (what
 * the code calls absolute coordinates) and builds one cell per extruded
 * solid.
 *
 * Matrices, the rotation matrix, point transformation and cell creation are
 * the float and kernel parts; they are parameters here.
 */
module WallAnalysis {
  import opened Common

  type Coords = seq<real>

  datatype PointList = CartesianPointList2D(coordList: seq<Coords>) | OtherPointList
  datatype Curve = IndexedPolyCurve(points: PointList) | OtherCurve
  datatype Profile = ArbitraryClosedProfileDef(outerCurve: Curve) | OtherProfileDef

  /** An IfcAxis2Placement: `is3D` for IFCAXIS2PLACEMENT3D. */
  datatype Position = Position(is3D: bool, location: Coords, refDirection: Option<Coords>)

  datatype Item = ExtrudedAreaSolid(depth: real, sweptArea: Profile, position: Position) | OtherItem
  datatype Representation = ShapeRepresentation(items: seq<Item>) | OtherRepresentation
  datatype ShapeAspect = ShapeAspect(name: string, representations: seq<Representation>)

  /** `HasShapeAspects`, None when the attribute is missing. */
  datatype ProductDefinitionShape = ProductDefinitionShape(shapeAspects: Option<seq<ShapeAspect>>)

  /** An IfcLocalPlacement: the matrix `get_local_placement` gives for it and
    * the placement it is relative to. */
  datatype LocalPlacement<M> = LocalPlacement(local: M, relTo: Option<LocalPlacement<M>>)

  datatype Wall<M> = Wall(objectPlacement: Option<LocalPlacement<M>>, representation: Option<ProductDefinitionShape>)

  /** The keys an extruded solid sets in `layer_info`. */
  datatype Extrusion = Extrusion(depth: real, representationType: string, profilePoints: Option<seq<Coords>>,
                                 location: Option<Coords>, refDirection: Option<Coords>)

  /** `layer_info`: "Material" always; the extrusion keys once an extruded
    * solid was seen; "AbsoluteKoordinaten" only in the version under Tests. */
  datatype LayerInfo = LayerInfo(material: string, extrusion: Option<Extrusion>, absolute: Option<Option<seq<Coords>>>)

  // ---------------------------------------------------------------------
  // The pure helpers

  const ClosedProfileType := "ArbitraryClosedProfil"
  const Divers := "divers"

  /** The representation type of one layer. */
  function ProfileType(profile: Profile): (t: string)
    ensures t == ClosedProfileType <==> profile.ArbitraryClosedProfileDef?
    ensures t != ClosedProfileType ==> t == Divers
  {
    if profile.ArbitraryClosedProfileDef? then ClosedProfileType else Divers
  }

  /** `_get_profile_points`: the 2D point list when the closed profile, the
    * indexed polycurve and the 2D point list nest as expected. */
  function ProfilePoints(profile: Profile): (r: Option<seq<Coords>>)
    ensures r.Some? <==>
      && profile.ArbitraryClosedProfileDef?
      && profile.outerCurve.IndexedPolyCurve?
      && profile.outerCurve.points.CartesianPointList2D?
    ensures r.Some? ==> r.value == profile.outerCurve.points.coordList
  {
    match profile
    case ArbitraryClosedProfileDef(IndexedPolyCurve(CartesianPointList2D(coords))) => Some(coords)
    case _ => None
  }

  /** `_get_placement_details`: Location and RefDirection of a 3D placement,
    * (None, None) otherwise. */
  function PlacementDetails(position: Position): (r: (Option<Coords>, Option<Coords>))
    ensures r.0.Some? <==> position.is3D
    ensures r.0.Some? ==> r.0.value == position.location && r.1 == position.refDirection
    ensures !position.is3D ==> r.1.None?
  {
    if position.is3D then (Some(position.location), position.refDirection) else (None, None)
  }

  function ExtrusionOf(item: Item): Extrusion
    requires item.ExtrudedAreaSolid?
  {
    var details := PlacementDetails(item.position);
    Extrusion(item.depth, ProfileType(item.sweptArea), ProfilePoints(item.sweptArea), details.0, details.1)
  }

  /** The extruded solids of an aspect's IfcShapeRepresentations, in order. */
  function ExtrudedItems(reps: seq<Representation>): (items: seq<Item>)
    ensures forall k :: 0 <= k < |items| ==> items[k].ExtrudedAreaSolid?
    decreases |reps|
  {
    if |reps| == 0 then []
    else
      var rep := reps[|reps| - 1];
      ExtrudedItems(reps[..|reps| - 1]) + (if rep.ShapeRepresentation? then ExtrudedOf(rep.items) else [])
  }

  function ExtrudedOf(items: seq<Item>): (r: seq<Item>)
    ensures forall k :: 0 <= k < |r| ==> r[k].ExtrudedAreaSolid?
    decreases |items|
  {
    if |items| == 0 then []
    else ExtrudedOf(items[..|items| - 1]) + (if items[|items| - 1].ExtrudedAreaSolid? then [items[|items| - 1]] else [])
  }

  /** The keys the last of `solids` sets, or `fallback` when there is none. */
  function LastOf(solids: seq<Item>, fallback: Option<Extrusion>): Option<Extrusion>
    requires forall k :: 0 <= k < |solids| ==> solids[k].ExtrudedAreaSolid?
  {
    if |solids| == 0 then fallback else Some(ExtrusionOf(solids[|solids| - 1]))
  }

  lemma LastOfAppend(xs: seq<Item>, ys: seq<Item>, fallback: Option<Extrusion>)
    requires forall k :: 0 <= k < |xs| ==> xs[k].ExtrudedAreaSolid?
    requires forall k :: 0 <= k < |ys| ==> ys[k].ExtrudedAreaSolid?
    ensures LastOf(xs + ys, fallback) == LastOf(ys, LastOf(xs, fallback))
  {
    if |ys| > 0 {
      assert (xs + ys)[|xs + ys| - 1] == ys[|ys| - 1];
    } else {
      assert xs + ys == xs;
    }
  }

  /** The plain `_process_shape_aspect`: each extruded solid overwrites the
    * keys, so the last one decides. */
  function AspectInfo(aspect: ShapeAspect): LayerInfo
  {
    LayerInfo(aspect.name, LastOf(ExtrudedItems(aspect.representations), None), None)
  }

  /** `_determine_rotation_angle`: the four axis directions in the plane get
    * their angle, anything else 0. */
  function RotationAngle(d: Coords): (angle: int)
    ensures angle == 90 <==> d == [0.0, 1.0, 0.0]
    ensures angle == 180 <==> d == [-1.0, 0.0, 0.0]
    ensures angle == 270 <==> d == [0.0, -1.0, 0.0]
    ensures angle == 0 || angle == 90 || angle == 180 || angle == 270
  {
    if d == [1.0, 0.0, 0.0] then 0
    else if d == [0.0, 1.0, 0.0] then 90
    else if d == [-1.0, 0.0, 0.0] then 180
    else if d == [0.0, -1.0, 0.0] then 270
    else 0
  }

  /** `n` quarter turns about the z axis, counter-clockwise. */
  function QuarterTurns(d: Coords, n: nat): Coords
    requires |d| == 3
    ensures |QuarterTurns(d, n)| == 3
  {
    if n == 0 then d else var e := QuarterTurns(d, n - 1); [-e[1], e[0], e[2]]
  }

  /** The angle the lookup gives turns the x axis onto the direction, for the
    * four directions it knows. */
  lemma RotationAngleTurnsXAxis(d: Coords)
    requires d == [1.0, 0.0, 0.0] || d == [0.0, 1.0, 0.0] || d == [-1.0, 0.0, 0.0] || d == [0.0, -1.0, 0.0]
    ensures QuarterTurns([1.0, 0.0, 0.0], RotationAngle(d) / 90) == d
  {
    var x := [1.0, 0.0, 0.0];
    assert QuarterTurns(x, 1) == [0.0, 1.0, 0.0];
    assert QuarterTurns(x, 2) == [-1.0, 0.0, 0.0];
    assert QuarterTurns(x, 3) == [0.0, -1.0, 0.0];
  }

  // ---------------------------------------------------------------------
  // The representation-type fold

  /** `representation_type` and `diverse_representation` as the loop keeps them. */
  datatype TypeState = TypeState(repType: Option<string>, diverse: bool)

  /** One pass of the fold: `layer_info["RepresentationType"]` is read in
    * both branches, and is a KeyError for a layer without an extruded solid. */
  function TypeStep(s: TypeState, info: LayerInfo): Outcome<TypeState>
  {
    if info.extrusion.None? then Raised(KeyError)
    else
      var t := info.extrusion.value.representationType;
      if s.repType.None? then Returned(TypeState(Some(t), s.diverse))
      else if s.repType.value != t then Returned(s.(diverse := true))
      else Returned(s)
  }

  function TypeFold(infos: seq<LayerInfo>): Outcome<TypeState>
    decreases |infos|
  {
    if |infos| == 0 then Returned(TypeState(None, false))
    else
      match TypeFold(infos[..|infos| - 1])
      case Raised(e) => Raised(e)
      case Returned(s) => TypeStep(s, infos[|infos| - 1])
  }

  /** What is printed: "divers" once any type differed. */
  function Reported(s: TypeState): Option<string>
  {
    if s.diverse then Some(Divers) else s.repType
  }

  /** The fold reports no type for no layers, "divers" when two layers
    * differ, and otherwise the type all layers share; it raises KeyError
    * exactly when some layer had no extruded solid. */
  lemma {:induction false} TypeFoldMeaning(infos: seq<LayerInfo>)
    ensures TypeFold(infos).Raised? <==> exists i :: 0 <= i < |infos| && infos[i].extrusion.None?
    ensures TypeFold(infos).Raised? ==> TypeFold(infos).exc == KeyError
    ensures TypeFold(infos).Returned? ==>
      Reported(TypeFold(infos).value) ==
        if |infos| == 0 then None
        else if exists i :: 0 <= i < |infos| && infos[i].extrusion.value.representationType != infos[0].extrusion.value.representationType
        then Some(Divers)
        else Some(infos[0].extrusion.value.representationType)
    ensures TypeFold(infos).Returned? ==>
      && (TypeFold(infos).value.repType.None? <==> |infos| == 0)
      && (|infos| > 0 ==> TypeFold(infos).value.repType == Some(infos[0].extrusion.value.representationType))
      && (TypeFold(infos).value.diverse <==>
            exists i :: 0 <= i < |infos| && infos[i].extrusion.value.representationType != infos[0].extrusion.value.representationType)
    decreases |infos|
  {
    if |infos| > 0 {
      var init := infos[..|infos| - 1];
      TypeFoldMeaning(init);
      assert forall i :: 0 <= i < |init| ==> init[i] == infos[i];
      if TypeFold(init).Raised? {
        var i :| 0 <= i < |init| && init[i].extrusion.None?;
        assert infos[i].extrusion.None?;
      }
    }
  }

  // ---------------------------------------------------------------------
  // The loop over the shape aspects, for both versions

  /** What processing one aspect gives: the layer info or an exception, and
    * the cells built on the way (none in the plain version). */
  datatype AspectRun<C> = AspectRun(info: Outcome<LayerInfo>, cells: seq<C>)

  /** `self.layer_details` and `self.cells` appended by the loop, and where
    * the fold stands. */
  datatype ShapeRun<C> = ShapeRun(details: seq<LayerInfo>, cells: seq<C>, state: Outcome<TypeState>)

  /** The loop of `_get_product_definition_shape`: process the aspect, append
    * its info, then fold its type; any exception ends the loop. */
  function ShapeFold<C>(aspects: seq<ShapeAspect>, process: ShapeAspect -> AspectRun<C>): ShapeRun<C>
    decreases |aspects|
  {
    if |aspects| == 0 then ShapeRun([], [], Returned(TypeState(None, false)))
    else
      var r := ShapeFold(aspects[..|aspects| - 1], process);
      if r.state.Raised? then r
      else
        var p := process(aspects[|aspects| - 1]);
        match p.info
        case Raised(e) => ShapeRun(r.details, r.cells + p.cells, Raised(e))
        case Returned(info) => ShapeRun(r.details + [info], r.cells + p.cells, TypeStep(r.state.value, info))
  }

  lemma ShapeFoldStep<C>(aspects: seq<ShapeAspect>, process: ShapeAspect -> AspectRun<C>, i: nat)
    requires i < |aspects|
    ensures ShapeFold(aspects[..i + 1], process) ==
      (var r := ShapeFold(aspects[..i], process);
       if r.state.Raised? then r
       else
         var p := process(aspects[i]);
         match p.info
         case Raised(e) => ShapeRun(r.details, r.cells + p.cells, Raised(e))
         case Returned(info) => ShapeRun(r.details + [info], r.cells + p.cells, TypeStep(r.state.value, info)))
  {
    assert aspects[..i + 1][..i] == aspects[..i];
  }

  lemma {:induction false} ShapeFoldRaisedStays<C>(aspects: seq<ShapeAspect>, process: ShapeAspect -> AspectRun<C>, n: nat)
    requires n <= |aspects| && ShapeFold(aspects[..n], process).state.Raised?
    ensures ShapeFold(aspects, process) == ShapeFold(aspects[..n], process)
    decreases |aspects| - n
  {
    if n < |aspects| {
      ShapeFoldStep(aspects, process, n);
      ShapeFoldRaisedStays(aspects, process, n + 1);
    } else {
      assert aspects[..n] == aspects;
    }
  }

  /** When the loop runs through, there is one layer detail per aspect, in
    * order, and the state is the fold of those details. */
  lemma {:induction false} ShapeFoldDetails<C>(aspects: seq<ShapeAspect>, process: ShapeAspect -> AspectRun<C>)
    ensures var r := ShapeFold(aspects, process);
      r.state.Returned? ==>
        && |r.details| == |aspects|
        && (forall i :: 0 <= i < |aspects| ==> process(aspects[i]).info == Returned(r.details[i]))
        && r.state == TypeFold(r.details)
    decreases |aspects|
  {
    if |aspects| > 0 {
      var init := aspects[..|aspects| - 1];
      var r0 := ShapeFold(init, process);
      ShapeFoldDetails(init, process);
      var r := ShapeFold(aspects, process);
      if r.state.Returned? {
        assert r0.state.Returned?;
        assert forall i :: 0 <= i < |init| ==> init[i] == aspects[i];
        assert r.details[..|r.details| - 1] == r0.details;
      }
    }
  }

  /** One pass of the loop over the aspects, from the state reached after
    * the first i. */
  lemma ShapeFoldAdvance<C>(aspects: seq<ShapeAspect>, process: ShapeAspect -> AspectRun<C>, i: nat,
                            details: seq<LayerInfo>, cells: seq<C>, st: TypeState)
    requires i < |aspects|
    requires ShapeFold(aspects[..i], process) == ShapeRun(details, cells, Returned(st))
    ensures var out := process(aspects[i]);
      && (out.info.Raised? ==> ShapeFold(aspects, process) == ShapeRun(details, cells + out.cells, Raised(out.info.exc)))
      && (out.info.Returned? ==>
            ShapeFold(aspects[..i + 1], process) == ShapeRun(details + [out.info.value], cells + out.cells, TypeStep(st, out.info.value)))
      && (out.info.Returned? && out.info.value.extrusion.None? ==>
            ShapeFold(aspects, process) == ShapeRun(details + [out.info.value], cells + out.cells, Raised(KeyError)))
  {
    ShapeFoldStep(aspects, process, i);
    if ShapeFold(aspects[..i + 1], process).state.Raised? {
      ShapeFoldRaisedStays(aspects, process, i + 1);
    }
  }

  /** The details appended are the infos of the first aspects, in order. */
  lemma {:induction false} ShapeFoldPrefix<C>(aspects: seq<ShapeAspect>, process: ShapeAspect -> AspectRun<C>)
    ensures IsPrefixOf(ShapeFold(aspects, process).details, aspects, process)
    decreases |aspects|
  {
    if |aspects| > 0 {
      var init := aspects[..|aspects| - 1];
      ShapeFoldPrefix(init, process);
      ShapeFoldDetails(init, process);
      var r0 := ShapeFold(init, process);
      var r := ShapeFold(aspects, process);
      if r0.state.Returned? && process(aspects[|aspects| - 1]).info.Returned? {
        var info := process(aspects[|aspects| - 1]).info.value;
        assert r.details == r0.details + [info];
        forall i | 0 <= i < |r.details| ensures process(aspects[i]).info == Returned(r.details[i]) {
          if i < |r0.details| {
            assert r.details[i] == r0.details[i] && init[i] == aspects[i];
          }
        }
      }
    }
  }

  /** When no aspect raises, the loop stops exactly when some aspect has no
    * extruded solid, on the KeyError of the fold, and that aspect's details
    * were already appended: they are the last entry. */
  lemma {:induction false} ShapeFoldKeyError<C>(aspects: seq<ShapeAspect>, process: ShapeAspect -> AspectRun<C>)
    requires forall a :: process(a).info.Returned?
    ensures var r := ShapeFold(aspects, process);
      && (r.state.Raised? <==> exists i :: 0 <= i < |aspects| && process(aspects[i]).info.value.extrusion.None?)
      && (r.state.Raised? ==> r.state.exc == KeyError && |r.details| > 0 && r.details[|r.details| - 1].extrusion.None?)
    decreases |aspects|
  {
    if |aspects| > 0 {
      var init := aspects[..|aspects| - 1];
      var last := aspects[|aspects| - 1];
      ShapeFoldKeyError(init, process);
      var r0 := ShapeFold(init, process);
      if r0.state.Raised? {
        var i :| 0 <= i < |init| && process(init[i]).info.value.extrusion.None?;
        assert init[i] == aspects[i];
      } else {
        var info := process(last).info.value;
        assert ShapeFold(aspects, process).details == r0.details + [info];
        assert forall i :: 0 <= i < |init| ==> init[i] == aspects[i];
      }
    }
  }

  /** The details are the infos of the first aspects, in order. */
  predicate IsPrefixOf<C>(details: seq<LayerInfo>, aspects: seq<ShapeAspect>, process: ShapeAspect -> AspectRun<C>)
  {
    && |details| <= |aspects|
    && forall i :: 0 <= i < |details| ==> process(aspects[i]).info == Returned(details[i])
  }

  /** The shape aspects the loop visits; None without a representation. */
  function AspectsOf<M>(wall: Wall<M>): Option<seq<ShapeAspect>>
  {
    match wall.representation
    case None => None
    case Some(shape) => Some(if shape.shapeAspects.Some? then shape.shapeAspects.value else [])
  }

  /** What `analyze_wall` reports: the wall is missing, it has no
    * representation, or the printed representation type. */
  datatype Report = WallNotFound | NoRepresentation | RepresentationType(repType: Option<string>)

  function ShapeReport<C>(aspects: Option<seq<ShapeAspect>>, process: ShapeAspect -> AspectRun<C>): Outcome<Report>
  {
    match aspects
    case None => Returned(NoRepresentation)
    case Some(a) =>
      match ShapeFold(a, process).state
      case Raised(e) => Raised(e)
      case Returned(s) => Returned(RepresentationType(Reported(s)))
  }

  // ---------------------------------------------------------------------
  // ifc_wall_analyzer.py

  /** The plain version's processing of an aspect never raises. */
  function PlainProcess<C>(): ShapeAspect -> AspectRun<C>
  {
    aspect => AspectRun(Returned(AspectInfo(aspect)), [])
  }

  class WallAnalyzer<M> {
    const wallGuid: string
    /** `ifc_file.by_guid(wall_guid)`. */
    const wall: Option<Wall<M>>
    var layerDetails: seq<LayerInfo>

    constructor (wallGuid: string, wall: Option<Wall<M>>)
      ensures this.wallGuid == wallGuid && this.wall == wall && layerDetails == []
    {
      this.wallGuid := wallGuid;
      this.wall := wall;
      layerDetails := [];
    }

    /** `_process_shape_aspect`: the keys are overwritten by each extruded
      * solid met, in order. */
    static method ProcessShapeAspect(aspect: ShapeAspect) returns (info: LayerInfo)
      ensures info == AspectInfo(aspect)
    {
      var extrusion: Option<Extrusion> := None;
      var reps := aspect.representations;
      for r := 0 to |reps|
        invariant extrusion == LastOf(ExtrudedItems(reps[..r]), None)
      {
        assert reps[..r + 1][..r] == reps[..r];
        if reps[r].ShapeRepresentation? {
          LastOfAppend(ExtrudedItems(reps[..r]), ExtrudedOf(reps[r].items), None);
          extrusion := ScanItems(reps[r].items, extrusion);
        }
      }
      assert reps[..|reps|] == reps;
      info := LayerInfo(aspect.name, extrusion, None);
    }

    /** The inner loop over one representation's items. */
    static method ScanItems(items: seq<Item>, current: Option<Extrusion>) returns (extrusion: Option<Extrusion>)
      ensures extrusion == LastOf(ExtrudedOf(items), current)
    {
      extrusion := current;
      for k := 0 to |items|
        invariant extrusion == LastOf(ExtrudedOf(items[..k]), current)
      {
        assert items[..k + 1][..k] == items[..k];
        var item := items[k];
        if item.ExtrudedAreaSolid? {
          var details := PlacementDetails(item.position);
          extrusion := Some(Extrusion(item.depth, ProfileType(item.sweptArea), ProfilePoints(item.sweptArea), details.0, details.1));
        }
      }
      assert items[..|items|] == items;
    }

    /** `_get_product_definition_shape`. */
    method GetProductDefinitionShape() returns (report: Outcome<Report>)
      requires wall.Some?
      modifies this
      ensures var run := ShapeFold(if AspectsOf(wall.value).Some? then AspectsOf(wall.value).value else [], PlainProcess<M>());
        layerDetails == old(layerDetails) + run.details
      ensures report == ShapeReport(AspectsOf(wall.value), PlainProcess<M>())
    {
      var aspects := AspectsOf(wall.value);
      if aspects.None? {
        return Returned(NoRepresentation);
      }
      var a := aspects.value;
      var repType: Option<string> := None;
      var diverse := false;
      ghost var start := layerDetails;
      ghost var process := PlainProcess<M>();
      for i := 0 to |a|
        invariant var run := ShapeFold(a[..i], process);
          && layerDetails == start + run.details && run.cells == []
          && run.state == Returned(TypeState(repType, diverse))
      {
        ghost var run := ShapeFold(a[..i], process);
        ShapeFoldAdvance(a, process, i, run.details, run.cells, TypeState(repType, diverse));
        var info := ProcessShapeAspect(a[i]);
        assert process(a[i]) == AspectRun(Returned(info), []);
        layerDetails := layerDetails + [info];
        assert layerDetails == start + (run.details + [info]);
        if info.extrusion.None? {
          return Raised(KeyError);
        }
        if repType.None? {
          repType := Some(info.extrusion.value.representationType);
        } else if repType.value != info.extrusion.value.representationType {
          diverse := true;
        }
      }
      assert a[..|a|] == a;
      if diverse {
        repType := Some(Divers);
      }
      report := Returned(RepresentationType(repType));
    }

    /** `analyze_wall`: nothing happens when the wall was not found. */
    method AnalyzeWall() returns (report: Outcome<Report>)
      modifies this
      ensures wall.None? ==> report == Returned(WallNotFound) && layerDetails == old(layerDetails)
      ensures wall.Some? ==> report == ShapeReport(AspectsOf(wall.value), PlainProcess<M>())
      ensures wall.Some? ==>
        layerDetails == old(layerDetails) +
          ShapeFold(if AspectsOf(wall.value).Some? then AspectsOf(wall.value).value else [], PlainProcess<M>()).details
    {
      if wall.None? {
        return Returned(WallNotFound);
      }
      report := GetProductDefinitionShape();
    }
  }

  // ---------------------------------------------------------------------
  // Tests/ifc_wall_analyzer.py: placement chain, absolute points, cells

  /** The numeric side: 4x4 matrix product and identity, the transformation
    * of a profile point (rotation about z by the angle, translation to the
    * profile location, then the matrix of `_calculate_absolute_placement`,
    * first three coordinates kept), and the cell the kernel thickens from
    * a face. */
  datatype Geometry<!M, C> = Geometry(
    mul: (M, M) -> M,
    identity: M,
    transform: (int, Coords, M, Coords) -> Coords,
    makeCell: (seq<Coords>, real, string) -> C)

  /** The while loop of `_calculate_absolute_placement`: each parent's matrix
    * multiplied on the left of the running total. */
  function PlacementWalk<M, C>(g: Geometry<M, C>, p: LocalPlacement<M>, total: M): M
    decreases p
  {
    match p.relTo
    case None => total
    case Some(q) => PlacementWalk(g, q, g.mul(q.local, total))
  }

  function AbsolutePlacement<M, C>(g: Geometry<M, C>, placement: Option<LocalPlacement<M>>): M
  {
    match placement
    case None => g.identity
    case Some(p) => PlacementWalk(g, p, p.local)
  }

  /** The product of the `get_local_placement` matrices along the chain,
    * outermost first: the parent chain's product times this placement's
    * matrix. Since `get_local_placement` already folds in the parents, for
    * a chain of two or more levels this is not the placement in world
    * coordinates; it is what the loop multiplies. */
  function Composed<M, C>(g: Geometry<M, C>, p: LocalPlacement<M>): M
    decreases p
  {
    match p.relTo
    case None => p.local
    case Some(q) => g.mul(Composed(g, q), p.local)
  }

  /** Matrix multiplication is associative and the identity is neutral. */
  ghost predicate MatrixLaws<M(!new), C>(g: Geometry<M, C>)
  {
    && (forall a, b, c :: g.mul(g.mul(a, b), c) == g.mul(a, g.mul(b, c)))
    && (forall a :: g.mul(a, g.identity) == a)
  }

  lemma {:induction false} PlacementWalkComposes<M(!new), C>(g: Geometry<M, C>, p: LocalPlacement<M>, x: M)
    requires MatrixLaws(g)
    ensures PlacementWalk(g, p, g.mul(p.local, x)) == g.mul(Composed(g, p), x)
    decreases p
  {
    match p.relTo
    case None =>
    case Some(q) =>
      PlacementWalkComposes(g, q, g.mul(p.local, x));
      assert g.mul(q.local, g.mul(p.local, x)) == g.mul(g.mul(q.local, p.local), x);
  }

  /** Walking up the chain gives the composed placement; no placement gives
    * the identity. */
  lemma AbsolutePlacementMeaning<M(!new), C>(g: Geometry<M, C>, placement: Option<LocalPlacement<M>>)
    requires MatrixLaws(g)
    ensures AbsolutePlacement(g, placement) == if placement.None? then g.identity else Composed(g, placement.value)
  {
    if placement.Some? {
      var p := placement.value;
      PlacementWalkComposes(g, p, g.identity);
      assert g.mul(p.local, g.identity) == p.local;
    }
  }

  /** The angle for a solid's RefDirection, (1, 0, 0) when it has none. */
  function AngleOf(item: Item): int
    requires item.ExtrudedAreaSolid?
  {
    RotationAngle(if item.position.refDirection.Some? then item.position.refDirection.value else [1.0, 0.0, 0.0])
  }

  /** `_calculate_absolute_coordinates`: None without profile points,
    * otherwise each point transformed, in order. */
  function AbsoluteCoordinates<M, C>(g: Geometry<M, C>, wall: Wall<M>, item: Item, points: Option<seq<Coords>>): (r: Option<seq<Coords>>)
    requires item.ExtrudedAreaSolid?
    ensures r.None? <==> points.None? || |points.value| == 0
    ensures r.Some? ==> |r.value| == |points.value|
  {
    if points.None? || |points.value| == 0 then None
    else
      var pts := points.value;
      var placed := AbsolutePlacement(g, wall.objectPlacement);
      Some(seq(|pts|, k requires 0 <= k < |pts| => g.transform(AngleOf(item), item.position.location, placed, pts[k])))
  }

  /** The extruded solids of one aspect from a given state: each sets the
    * keys and adds its cell; a solid without points raises TypeError when
    * its cell is built. */
  function CellSolids<M, C>(g: Geometry<M, C>, wall: Wall<M>, start: AspectRun<C>, solids: seq<Item>): AspectRun<C>
    requires forall k :: 0 <= k < |solids| ==> solids[k].ExtrudedAreaSolid?
    decreases |solids|
  {
    if |solids| == 0 then start
    else
      var r := CellSolids(g, wall, start, solids[..|solids| - 1]);
      var item := solids[|solids| - 1];
      if r.info.Raised? then r
      else
        var info := r.info.value;
        var absolute := AbsoluteCoordinates(g, wall, item, ProfilePoints(item.sweptArea));
        if absolute.None? then AspectRun(Raised(TypeError), r.cells)
        else AspectRun(Returned(info.(extrusion := Some(ExtrusionOf(item)), absolute := Some(absolute))),
                       r.cells + [g.makeCell(absolute.value, item.depth, info.material)])
  }

  lemma {:induction false} CellSolidsAppend<M, C>(g: Geometry<M, C>, wall: Wall<M>, start: AspectRun<C>, xs: seq<Item>, ys: seq<Item>)
    requires forall k :: 0 <= k < |xs| ==> xs[k].ExtrudedAreaSolid?
    requires forall k :: 0 <= k < |ys| ==> ys[k].ExtrudedAreaSolid?
    ensures CellSolids(g, wall, start, xs + ys) == CellSolids(g, wall, CellSolids(g, wall, start, xs), ys)
    decreases |ys|
  {
    if |ys| == 0 {
      assert xs + ys == xs;
    } else {
      CellSolidsAppend(g, wall, start, xs, ys[..|ys| - 1]);
      assert (xs + ys)[..|xs + ys| - 1] == xs + ys[..|ys| - 1];
    }
  }

  /** The version under Tests processes an aspect this way. */
  function CellProcess<M, C>(g: Geometry<M, C>, wall: Wall<M>): ShapeAspect -> AspectRun<C>
  {
    (aspect: ShapeAspect) => CellSolids(g, wall, AspectRun(Returned(LayerInfo(aspect.name, None, None)), []), ExtrudedItems(aspect.representations))
  }

  /** The profile of an extruded solid yields at least one point. */
  predicate HasPoints(item: Item)
    requires item.ExtrudedAreaSolid?
  {
    ProfilePoints(item.sweptArea).Some? && |ProfilePoints(item.sweptArea).value| > 0
  }

  /** Processing an aspect either builds one cell per extruded solid and
    * sets the keys as the plain version does, or raises TypeError at the
    * first solid whose profile gives no points. */
  lemma {:induction false} CellSolidsMeaning<M, C>(g: Geometry<M, C>, wall: Wall<M>, name: string, solids: seq<Item>)
    requires forall k :: 0 <= k < |solids| ==> solids[k].ExtrudedAreaSolid?
    ensures var r := CellSolids(g, wall, AspectRun(Returned(LayerInfo(name, None, None)), []), solids);
      && (r.info.Raised? <==> exists k :: 0 <= k < |solids| && !HasPoints(solids[k]))
      && (r.info.Raised? ==> r.info.exc == TypeError && |r.cells| < |solids|)
      && (r.info.Returned? ==>
            && |r.cells| == |solids|
            && r.info.value.material == name
            && r.info.value.extrusion == LastOf(solids, None)
            && (r.info.value.absolute.None? <==> |solids| == 0))
    decreases |solids|
  {
    if |solids| > 0 {
      var init := solids[..|solids| - 1];
      CellSolidsMeaning(g, wall, name, init);
      assert forall k :: 0 <= k < |init| ==> init[k] == solids[k];
    }
  }

  /** The Tests version agrees with the plain one on the material and the
    * extrusion keys of an aspect whose profiles all give points, and builds
    * one cell per extruded solid. */
  lemma CellProcessAgreesWithPlain<M, C>(g: Geometry<M, C>, wall: Wall<M>, aspect: ShapeAspect)
    requires forall k :: 0 <= k < |ExtrudedItems(aspect.representations)| ==> HasPoints(ExtrudedItems(aspect.representations)[k])
    ensures var r := CellProcess(g, wall)(aspect);
      && r.info.Returned?
      && r.info.value.(absolute := None) == AspectInfo(aspect)
      && |r.cells| == |ExtrudedItems(aspect.representations)|
  {
    CellSolidsMeaning(g, wall, aspect.name, ExtrudedItems(aspect.representations));
  }

  /** All profiles of all aspects give points. */
  predicate AllHavePoints(aspects: seq<ShapeAspect>)
  {
    forall i, k :: 0 <= i < |aspects| && 0 <= k < |ExtrudedItems(aspects[i].representations)| ==>
      HasPoints(ExtrudedItems(aspects[i].representations)[k])
  }

  /** When every profile gives points, the Tests version appends the plain
    * version's layer details (with the absolute points added) and reports
    * the same representation type. */
  lemma {:induction false} CellFoldAgreesWithPlain<M, C>(g: Geometry<M, C>, wall: Wall<M>, aspects: seq<ShapeAspect>)
    requires AllHavePoints(aspects)
    ensures var cell := ShapeFold(aspects, CellProcess(g, wall));
      var plain := ShapeFold(aspects, PlainProcess<C>());
      && cell.state == plain.state
      && |cell.details| == |plain.details|
      && forall i :: 0 <= i < |cell.details| ==> cell.details[i].(absolute := None) == plain.details[i]
    decreases |aspects|
  {
    if |aspects| > 0 {
      var init := aspects[..|aspects| - 1];
      assert AllHavePoints(init) by {
        forall i, k | 0 <= i < |init| && 0 <= k < |ExtrudedItems(init[i].representations)|
          ensures HasPoints(ExtrudedItems(init[i].representations)[k])
        {
          assert init[i] == aspects[i];
        }
      }
      CellFoldAgreesWithPlain(g, wall, init);
      var last := aspects[|aspects| - 1];
      CellProcessAgreesWithPlain(g, wall, last);
    }
  }

  lemma {:induction false} ExtrudedOfAppend(xs: seq<Item>, ys: seq<Item>)
    ensures ExtrudedOf(xs + ys) == ExtrudedOf(xs) + ExtrudedOf(ys)
    decreases |ys|
  {
    if |ys| == 0 {
      assert xs + ys == xs;
    } else {
      ExtrudedOfAppend(xs, ys[..|ys| - 1]);
      assert (xs + ys)[..|xs + ys| - 1] == xs + ys[..|ys| - 1];
    }
  }

  lemma {:induction false} ExtrudedItemsAppend(xs: seq<Representation>, ys: seq<Representation>)
    ensures ExtrudedItems(xs + ys) == ExtrudedItems(xs) + ExtrudedItems(ys)
    decreases |ys|
  {
    if |ys| == 0 {
      assert xs + ys == xs;
    } else {
      ExtrudedItemsAppend(xs, ys[..|ys| - 1]);
      assert (xs + ys)[..|xs + ys| - 1] == xs + ys[..|ys| - 1];
    }
  }

  /** Once a TypeError is raised nothing more happens. */
  lemma {:induction false} CellSolidsRaisedStays<M, C>(g: Geometry<M, C>, wall: Wall<M>, start: AspectRun<C>, solids: seq<Item>)
    requires forall k :: 0 <= k < |solids| ==> solids[k].ExtrudedAreaSolid?
    requires start.info.Raised?
    ensures CellSolids(g, wall, start, solids) == start
    decreases |solids|
  {
    if |solids| > 0 {
      CellSolidsRaisedStays(g, wall, start, solids[..|solids| - 1]);
    }
  }

  /** The cells built before a run of solids stay in front of it. */
  lemma {:induction false} CellSolidsShift<M, C>(g: Geometry<M, C>, wall: Wall<M>, info: Outcome<LayerInfo>, prior: seq<C>, solids: seq<Item>)
    requires forall k :: 0 <= k < |solids| ==> solids[k].ExtrudedAreaSolid?
    ensures var r := CellSolids(g, wall, AspectRun(info, []), solids);
      CellSolids(g, wall, AspectRun(info, prior), solids) == AspectRun(r.info, prior + r.cells)
    decreases |solids|
  {
    if |solids| > 0 {
      CellSolidsShift(g, wall, info, prior, solids[..|solids| - 1]);
      var r := CellSolids(g, wall, AspectRun(info, []), solids[..|solids| - 1]);
      if r.info.Returned? {
        var item := solids[|solids| - 1];
        var absolute := AbsoluteCoordinates(g, wall, item, ProfilePoints(item.sweptArea));
        if absolute.Some? {
          assert prior + r.cells + [g.makeCell(absolute.value, item.depth, r.info.value.material)]
              == prior + (r.cells + [g.makeCell(absolute.value, item.depth, r.info.value.material)]);
        }
      }
    }
  }

  /** One more extruded solid, as the definition unfolds. */
  lemma CellSolidsSnoc<M, C>(g: Geometry<M, C>, wall: Wall<M>, start: AspectRun<C>, done: seq<Item>, item: Item)
    requires forall k :: 0 <= k < |done| ==> done[k].ExtrudedAreaSolid?
    requires item.ExtrudedAreaSolid?
    ensures var r := CellSolids(g, wall, start, done);
      var absolute := AbsoluteCoordinates(g, wall, item, ProfilePoints(item.sweptArea));
      CellSolids(g, wall, start, done + [item]) ==
        if r.info.Raised? then r
        else if absolute.None? then AspectRun(Raised(TypeError), r.cells)
        else AspectRun(Returned(r.info.value.(extrusion := Some(ExtrusionOf(item)), absolute := Some(absolute))),
                       r.cells + [g.makeCell(absolute.value, item.depth, r.info.value.material)])
  {
    assert (done + [item])[..|done|] == done;
  }

  /** A TypeError among the first `n` items ends the representation's run. */
  lemma ItemsRaisedStays<M, C>(g: Geometry<M, C>, wall: Wall<M>, start: AspectRun<C>, items: seq<Item>, n: nat)
    requires n <= |items|
    requires CellSolids(g, wall, start, ExtrudedOf(items[..n])).info.Raised?
    ensures CellSolids(g, wall, start, ExtrudedOf(items)) == CellSolids(g, wall, start, ExtrudedOf(items[..n]))
  {
    ExtrudedOfAppend(items[..n], items[n..]);
    assert items[..n] + items[n..] == items;
    CellSolidsAppend(g, wall, start, ExtrudedOf(items[..n]), ExtrudedOf(items[n..]));
    CellSolidsRaisedStays(g, wall, CellSolids(g, wall, start, ExtrudedOf(items[..n])), ExtrudedOf(items[n..]));
  }

  /** A TypeError in the first `n` representations ends the aspect's run. */
  lemma RepsRaisedStays<M, C>(g: Geometry<M, C>, wall: Wall<M>, start: AspectRun<C>, reps: seq<Representation>, n: nat)
    requires n <= |reps|
    requires CellSolids(g, wall, start, ExtrudedItems(reps[..n])).info.Raised?
    ensures CellSolids(g, wall, start, ExtrudedItems(reps)) == CellSolids(g, wall, start, ExtrudedItems(reps[..n]))
  {
    ExtrudedItemsAppend(reps[..n], reps[n..]);
    assert reps[..n] + reps[n..] == reps;
    CellSolidsAppend(g, wall, start, ExtrudedItems(reps[..n]), ExtrudedItems(reps[n..]));
    CellSolidsRaisedStays(g, wall, CellSolids(g, wall, start, ExtrudedItems(reps[..n])), ExtrudedItems(reps[n..]));
  }

  /** One more shape representation: its items run from where the previous
    * ones stopped, with no cells of their own yet. */
  lemma RepsStep<M, C>(g: Geometry<M, C>, wall: Wall<M>, start: AspectRun<C>, reps: seq<Representation>, r: nat)
    requires r < |reps|
    ensures var run := CellSolids(g, wall, start, ExtrudedItems(reps[..r]));
      var step := CellSolids(g, wall, AspectRun(run.info, []), if reps[r].ShapeRepresentation? then ExtrudedOf(reps[r].items) else []);
      CellSolids(g, wall, start, ExtrudedItems(reps[..r + 1])) == AspectRun(step.info, run.cells + step.cells)
  {
    assert reps[..r + 1][..r] == reps[..r];
    var done := ExtrudedItems(reps[..r]);
    var more := if reps[r].ShapeRepresentation? then ExtrudedOf(reps[r].items) else [];
    assert ExtrudedItems(reps[..r + 1]) == done + more;
    CellSolidsAppend(g, wall, start, done, more);
    var run := CellSolids(g, wall, start, done);
    CellSolidsShift(g, wall, run.info, run.cells, more);
  }

  /** The effect of one pass of the loop over the representations: the
    * cells it added and the info it leaves, and the end of the run when it
    * raised. */
  lemma RepsAdvance<M, C>(g: Geometry<M, C>, wall: Wall<M>, start: AspectRun<C>, reps: seq<Representation>, r: nat,
                          info: Outcome<LayerInfo>, added: seq<C>)
    requires r < |reps|
    requires CellSolids(g, wall, start, ExtrudedItems(reps[..r])).info.Returned?
    requires var run := CellSolids(g, wall, start, ExtrudedItems(reps[..r]));
      if reps[r].ShapeRepresentation? then
        var step := CellSolids(g, wall, AspectRun(run.info, []), ExtrudedOf(reps[r].items));
        info == step.info && added == step.cells
      else info == run.info && added == []
    ensures var next := CellSolids(g, wall, start, ExtrudedItems(reps[..r + 1]));
      next.info == info && next.cells == CellSolids(g, wall, start, ExtrudedItems(reps[..r])).cells + added
    ensures info.Raised? ==> CellSolids(g, wall, start, ExtrudedItems(reps)) == CellSolids(g, wall, start, ExtrudedItems(reps[..r + 1]))
  {
    RepsStep(g, wall, start, reps, r);
    var run := CellSolids(g, wall, start, ExtrudedItems(reps[..r]));
    if !reps[r].ShapeRepresentation? {
      assert run.cells + [] == run.cells;
    }
    if info.Raised? {
      RepsRaisedStays(g, wall, start, reps, r + 1);
    }
  }

  /** `_create_cell_complex`: no complex without cells, otherwise the one
    * built from all cells (the kernel's `CellComplex.ByCells`). */
  function CellComplex<C>(cells: seq<C>): (complex: Option<seq<C>>)
    ensures complex.None? <==> |cells| == 0
    ensures complex.Some? ==> complex.value == cells
  {
    if |cells| == 0 then None else Some(cells)
  }

  class CellWallAnalyzer<M, C> {
    const wallGuid: string
    const wall: Option<Wall<M>>
    const geometry: Geometry<M, C>
    var layerDetails: seq<LayerInfo>
    var cells: seq<C>

    constructor (wallGuid: string, wall: Option<Wall<M>>, geometry: Geometry<M, C>)
      ensures this.wallGuid == wallGuid && this.wall == wall && this.geometry == geometry
      ensures layerDetails == [] && cells == []
    {
      this.wallGuid := wallGuid;
      this.wall := wall;
      this.geometry := geometry;
      layerDetails := [];
      cells := [];
    }

    /** `_calculate_absolute_placement`. */
    method CalculateAbsolutePlacement(placement: Option<LocalPlacement<M>>) returns (total: M)
      ensures total == AbsolutePlacement(geometry, placement)
    {
      if placement.None? {
        return geometry.identity;
      }
      var lp := placement.value;
      total := lp.local;
      while lp.relTo.Some?
        invariant PlacementWalk(geometry, lp, total) == AbsolutePlacement(geometry, placement)
        decreases lp
      {
        lp := lp.relTo.value;
        total := geometry.mul(lp.local, total);
      }
    }

    /** `_calculate_absolute_coordinates`. */
    method CalculateAbsoluteCoordinates(item: Item, points: Option<seq<Coords>>) returns (absolute: Option<seq<Coords>>)
      requires wall.Some? && item.ExtrudedAreaSolid?
      ensures absolute == AbsoluteCoordinates(geometry, wall.value, item, points)
    {
      if points.None? || |points.value| == 0 {
        return None;
      }
      var angle := RotationAngle(if item.position.refDirection.Some? then item.position.refDirection.value else [1.0, 0.0, 0.0]);
      var placed := CalculateAbsolutePlacement(wall.value.objectPlacement);
      var pts := points.value;
      var result: seq<Coords> := [];
      for k := 0 to |pts|
        invariant |result| == k
        invariant forall j :: 0 <= j < k ==> result[j] == geometry.transform(angle, item.position.location, placed, pts[j])
      {
        result := result + [geometry.transform(angle, item.position.location, placed, pts[k])];
      }
      ghost var expected := AbsoluteCoordinates(geometry, wall.value, item, points);
      assert angle == AngleOf(item);
      assert |expected.value| == |result|;
      assert forall j :: 0 <= j < |result| ==> expected.value[j] == result[j];
      assert expected.value == result;
      absolute := Some(result);
    }

    /** The inner loop of `_process_shape_aspect` over one representation's
      * items, with `_create_topologic_geometry` for each extruded solid. */
    method ProcessItems(items: seq<Item>, current: LayerInfo) returns (info: Outcome<LayerInfo>)
      requires wall.Some?
      modifies this`cells
      ensures var r := CellSolids(geometry, wall.value, AspectRun(Returned(current), []), ExtrudedOf(items));
        info == r.info && cells == old(cells) + r.cells
    {
      info := Returned(current);
      ghost var w := wall.value;
      ghost var start := AspectRun(Returned(current), []);
      for k := 0 to |items|
        invariant var r := CellSolids(geometry, w, start, ExtrudedOf(items[..k]));
          info == r.info && info.Returned? && cells == old(cells) + r.cells
      {
        assert items[..k + 1][..k] == items[..k];
        var item := items[k];
        if item.ExtrudedAreaSolid? {
          ghost var done := ExtrudedOf(items[..k]);
          assert ExtrudedOf(items[..k + 1]) == done + [item];
          CellSolidsSnoc(geometry, w, start, done, item);
          var points := ProfilePoints(item.sweptArea);
          var absolute := CalculateAbsoluteCoordinates(item, points);
          if absolute.None? {
            ItemsRaisedStays(geometry, w, start, items, k + 1);
            return Raised(TypeError);
          }
          var updated := info.value.(extrusion := Some(ExtrusionOf(item)), absolute := Some(absolute));
          ghost var before := cells;
          cells := cells + [geometry.makeCell(absolute.value, item.depth, updated.material)];
          assert cells == old(cells) + (before[|old(cells)|..] + [geometry.makeCell(absolute.value, item.depth, updated.material)]);
          info := Returned(updated);
        } else {
          assert ExtrudedOf(items[..k + 1]) == ExtrudedOf(items[..k]) + [];
          assert ExtrudedOf(items[..k]) + [] == ExtrudedOf(items[..k]);
        }
      }
      assert items[..|items|] == items;
    }

    /** The Tests `_process_shape_aspect`: the loop over the representations. */
    method ProcessShapeAspect(aspect: ShapeAspect) returns (info: Outcome<LayerInfo>)
      requires wall.Some?
      modifies this`cells
      ensures info == CellProcess(geometry, wall.value)(aspect).info
      ensures cells == old(cells) + CellProcess(geometry, wall.value)(aspect).cells
    {
      ghost var start := AspectRun(Returned(LayerInfo(aspect.name, None, None)), []);
      ghost var w := wall.value;
      info := Returned(LayerInfo(aspect.name, None, None));
      var reps := aspect.representations;
      for r := 0 to |reps|
        invariant var run := CellSolids(geometry, w, start, ExtrudedItems(reps[..r]));
          info == run.info && info.Returned? && cells == old(cells) + run.cells
      {
        ghost var before := cells;
        if reps[r].ShapeRepresentation? {
          info := ProcessItems(reps[r].items, info.value);
        }
        RepsAdvance(geometry, w, start, reps, r, info, cells[|before|..]);
        assert cells == old(cells) + (before[|old(cells)|..] + cells[|before|..]);
        if info.Raised? {
          return;
        }
      }
      assert reps[..|reps|] == reps;
      assert CellProcess(geometry, w)(aspect) == CellSolids(geometry, w, start, ExtrudedItems(reps));
    }

    /** The Tests `_get_product_definition_shape`. */
    method GetProductDefinitionShape() returns (report: Outcome<Report>)
      requires wall.Some?
      modifies this
      ensures var run := ShapeFold(if AspectsOf(wall.value).Some? then AspectsOf(wall.value).value else [], CellProcess(geometry, wall.value));
        layerDetails == old(layerDetails) + run.details && cells == old(cells) + run.cells
      ensures report == ShapeReport(AspectsOf(wall.value), CellProcess(geometry, wall.value))
    {
      var aspects := AspectsOf(wall.value);
      if aspects.None? {
        return Returned(NoRepresentation);
      }
      var a := aspects.value;
      ghost var process := CellProcess(geometry, wall.value);
      var repType: Option<string> := None;
      var diverse := false;
      ghost var start := layerDetails;
      ghost var startCells := cells;
      for i := 0 to |a|
        invariant var run := ShapeFold(a[..i], process);
          && layerDetails == start + run.details && cells == startCells + run.cells
          && run.state == Returned(TypeState(repType, diverse))
      {
        ghost var run := ShapeFold(a[..i], process);
        ShapeFoldAdvance(a, process, i, run.details, run.cells, TypeState(repType, diverse));
        ghost var before := cells;
        var outcome := ProcessShapeAspect(a[i]);
        assert cells == startCells + (run.cells + process(a[i]).cells);
        if outcome.Raised? {
          return Raised(outcome.exc);
        }
        var info := outcome.value;
        layerDetails := layerDetails + [info];
        assert layerDetails == start + (run.details + [info]);
        if info.extrusion.None? {
          return Raised(KeyError);
        }
        if repType.None? {
          repType := Some(info.extrusion.value.representationType);
        } else if repType.value != info.extrusion.value.representationType {
          diverse := true;
        }
      }
      assert a[..|a|] == a;
      if diverse {
        repType := Some(Divers);
      }
      report := Returned(RepresentationType(repType));
    }

    /** The Tests `analyze_wall`: the cell complex of the wall's layers, or
      * nothing when the wall is missing or no cell was built. */
    method AnalyzeWall() returns (report: Outcome<Report>, complex: Option<seq<C>>)
      modifies this
      ensures wall.None? ==> report == Returned(WallNotFound) && complex.None? && unchanged(this)
      ensures wall.Some? ==>
        var run := ShapeFold(if AspectsOf(wall.value).Some? then AspectsOf(wall.value).value else [], CellProcess(geometry, wall.value));
        && report == ShapeReport(AspectsOf(wall.value), CellProcess(geometry, wall.value))
        && layerDetails == old(layerDetails) + run.details
        && cells == old(cells) + run.cells
        && complex == (if report.Raised? then None else CellComplex(cells))
    {
      if wall.None? {
        return Returned(WallNotFound), None;
      }
      report := GetProductDefinitionShape();
      if report.Raised? {
        return report, None;
      }
      complex := if |cells| == 0 then None else Some(cells);
    }
  }
}
