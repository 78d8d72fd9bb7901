/**
 * Enriching the nodes of a stored graph with data read from the IFC file:
 * `get_ifc_element_attributes` and `enrich_graph_with_ifc_data` copy named
 * entity attributes onto every node whose GlobalId resolves; the older
 * enrich functions handle the nodes named "Window_…", "Door_…" and
 * "Room_…", set their 'Object' and a fixed list of property values.
 */
module Enrich {
  import opened Common
  import opened Ifc
  import IfcProperties

  /** A node attribute value: a string the scripts set, a value read from
    * the IFC file, or None. */
  datatype Attr = Str(s: string) | Val(v: Value) | Null

  predicate Truthy(a: Attr)
  {
    match a
    case Str(s) => s != ""
    case Null => false
    case Val(v) =>
      match v
      case Text(t) => t != ""
      case Integer(n) => n != 0
      case Logical(b) => b
      case Measure(m) => m != 0.0
  }

  /** The attribute dictionary of one node. */
  type NodeData = map<string, Attr>

  /** An IFC entity as the enrich scripts read it: its attributes by name,
    * its LongName and its IsDefinedBy. */
  datatype Entity = Entity(attributes: map<string, Attr>, longName: Option<string>, isDefinedBy: seq<Definition>)

  /** `node.get('GlobalId')` when it is truthy. */
  function GlobalIdOf(d: NodeData): (g: Option<Attr>)
    ensures g.Some? <==> "GlobalId" in d && Truthy(d["GlobalId"])
    ensures g.Some? ==> g.value == d["GlobalId"]
  {
    if "GlobalId" in d && Truthy(d["GlobalId"]) then Some(d["GlobalId"]) else None
  }

  /** `getattr(element, name)` where `hasattr` holds, None otherwise. */
  function AttributeOr(e: Entity, name: string): Attr
  {
    if name in e.attributes then e.attributes[name] else Null
  }

  /** `get_ifc_element_attributes(element, names)`. */
  function ElementAttributes(e: Entity, names: seq<string>): (d: NodeData)
    ensures forall n :: n in d <==> n in names
    ensures forall n :: n in d ==> d[n] == AttributeOr(e, n)
  {
    map n | n in names :: AttributeOr(e, n)
  }

  method GetIfcElementAttributes(e: Entity, names: seq<string>) returns (d: NodeData)
    ensures d == ElementAttributes(e, names)
  {
    d := map[];
    for i := 0 to |names|
      invariant forall n :: n in d <==> n in names[..i]
      invariant forall n :: n in d ==> d[n] == AttributeOr(e, n)
    {
      assert names[..i + 1] == names[..i] + [names[i]];
      if names[i] in e.attributes {
        d := d[names[i] := e.attributes[names[i]]];
      } else {
        d := d[names[i] := Null];
      }
    }
    assert names[..|names|] == names;
  }

  /** What `enrich_graph_with_ifc_data` does to one node: a node without a
    * truthy GlobalId is left as it is; otherwise `by_guid` looks the
    * element up, which raises for a GlobalId the file does not hold, and
    * the requested attributes overwrite the node's. An entity `by_guid`
    * returns is always truthy. */
  function EnrichNode(d: NodeData, byGuid: Attr -> Outcome<Entity>, names: seq<string>): Outcome<NodeData>
  {
    match GlobalIdOf(d)
    case None => Returned(d)
    case Some(g) =>
      match byGuid(g)
      case Raised(x) => Raised(x)
      case Returned(e) => Returned(d + ElementAttributes(e, names))
  }

  /** The loop body for one node: the node's dict merged with its element's
    * attributes, unchanged without a truthy GlobalId, or the exception of
    * the lookup. */
  method EnrichOne(d: NodeData, byGuid: Attr -> Outcome<Entity>, names: seq<string>) returns (r: Outcome<NodeData>)
    ensures r == EnrichNode(d, byGuid, names)
  {
    r := Returned(d);
    if "GlobalId" in d && Truthy(d["GlobalId"]) {
      var element := byGuid(d["GlobalId"]);
      if element.Raised? {
        return Raised(element.exc);
      }
      var attributes := GetIfcElementAttributes(element.value, names);
      r := Returned(d + attributes);
    }
  }

  /** A node raises exactly when it has a truthy GlobalId that the lookup
    * rejects, and then with the lookup's exception. */
  lemma EnrichRaisesOnLookup(d: NodeData, byGuid: Attr -> Outcome<Entity>, names: seq<string>)
    ensures EnrichNode(d, byGuid, names).Raised? <==> GlobalIdOf(d).Some? && byGuid(GlobalIdOf(d).value).Raised?
    ensures EnrichNode(d, byGuid, names).Raised? ==> EnrichNode(d, byGuid, names).exc == byGuid(GlobalIdOf(d).value).exc
  {
  }

  /** Only the requested attribute names change; every other attribute of
    * the node keeps its value. */
  lemma EnrichKeepsOthers(d: NodeData, byGuid: Attr -> Outcome<Entity>, names: seq<string>, k: string)
    requires k !in names && EnrichNode(d, byGuid, names).Returned?
    ensures k in EnrichNode(d, byGuid, names).value <==> k in d
    ensures k in d ==> EnrichNode(d, byGuid, names).value[k] == d[k]
  {
  }

  /** On a node whose element is found every requested attribute is the
    * element's, or None when the element lacks it. */
  lemma EnrichSetsRequested(d: NodeData, byGuid: Attr -> Outcome<Entity>, names: seq<string>, e: Entity)
    requires GlobalIdOf(d).Some? && byGuid(GlobalIdOf(d).value) == Returned(e)
    ensures EnrichNode(d, byGuid, names).Returned?
    ensures forall n :: n in names ==>
      n in EnrichNode(d, byGuid, names).value && EnrichNode(d, byGuid, names).value[n] == AttributeOr(e, n)
  {
  }

  /** Enriching an enriched node again with the same lookup changes
    * nothing, as long as the requested names do not include GlobalId. */
  lemma EnrichIdempotent(d: NodeData, byGuid: Attr -> Outcome<Entity>, names: seq<string>)
    requires "GlobalId" !in names && EnrichNode(d, byGuid, names).Returned?
    ensures EnrichNode(EnrichNode(d, byGuid, names).value, byGuid, names) == EnrichNode(d, byGuid, names)
  {
    var once := EnrichNode(d, byGuid, names).value;
    assert GlobalIdOf(once) == GlobalIdOf(d) by {
      EnrichKeepsOthers(d, byGuid, names, "GlobalId");
    }
    if GlobalIdOf(d).Some? {
      var e := byGuid(GlobalIdOf(d).value).value;
      assert once + ElementAttributes(e, names) == once;
    }
  }

  predicate StartsWith(s: string, prefix: string)
  {
    |prefix| <= |s| && s[..|prefix|] == prefix
  }

  /** The assignments of a node, in order: the attribute name and the value
    * its right-hand side produces or the exception it raises. */
  type Plan = seq<(string, Outcome<Attr>)>

  /** `extract_property_value` as a node attribute. */
  function PropertyAttr(e: Entity, property: string, valueType: string): Outcome<Attr>
  {
    match IfcProperties.PropertyValue(e.isDefinedBy, property, valueType)
    case Raised(x) => Raised(x)
    case Returned(None) => Returned(Null)
    case Returned(Some(v)) => Returned(Val(v))
  }

  function WindowPlan(e: Entity): Plan
  {
    [("Construction Type", PropertyAttr(e, "Construction Type", "text")),
     ("Sill Height", PropertyAttr(e, "Sill Height", "number")),
     ("Height", PropertyAttr(e, "Height", "number")),
     ("Width", PropertyAttr(e, "Width", "number")),
     ("Area", PropertyAttr(e, "Area", "area")),
     ("Material Interior", PropertyAttr(e, "Material Interior", "text")),
     ("Material Exterior", PropertyAttr(e, "Material Exterior", "text")),
     ("Type", PropertyAttr(e, "Family and Type", "text"))]
  }

  function DoorPlan(e: Entity): Plan
  {
    [("Construction Type", PropertyAttr(e, "Construction Type", "text")),
     ("Height", PropertyAttr(e, "Height", "number")),
     ("Width", PropertyAttr(e, "Width", "number")),
     ("Area", PropertyAttr(e, "Area", "area")),
     ("Object Type", PropertyAttr(e, "Family and Type", "text")),
     ("External", PropertyAttr(e, "IsExternal", "bool"))]
  }

  function SpacePlan(e: Entity): Plan
  {
    [("Long Name", Returned(Str(IfcProperties.RoomName(e.longName)))),
     ("Area", PropertyAttr(e, "Gross Floor Area", "area")),
     ("Height", PropertyAttr(e, "Height", "number")),
     ("IsExternal", PropertyAttr(e, "IsExternal", "bool")),
     ("Comments", PropertyAttr(e, "Comments", "text"))]
  }

  /** The keys a plan may write. */
  predicate PlanAvoids(plan: Plan, key: string)
  {
    forall k :: 0 <= k < |plan| ==> plan[k].0 != key
  }

  /** The assignments run in order until one raises; the ones before it
    * have taken effect. */
  function Assign(d: NodeData, plan: Plan): (r: (NodeData, Option<PyException>))
    ensures forall k :: k in d ==> k in r.0
    decreases |plan|
  {
    if |plan| == 0 then (d, None)
    else
      match plan[0].1
      case Raised(x) => (d, Some(x))
      case Returned(a) => Assign(d[plan[0].0 := a], plan[1..])
  }

  lemma {:induction false} AssignKeeps(d: NodeData, plan: Plan, key: string)
    requires PlanAvoids(plan, key)
    ensures key in Assign(d, plan).0 <==> key in d
    ensures key in d ==> Assign(d, plan).0[key] == d[key]
    decreases |plan|
  {
    if |plan| > 0 && plan[0].1.Returned? {
      assert PlanAvoids(plan[1..], key) by {
        assert forall k :: 0 <= k < |plan| - 1 ==> plan[1..][k] == plan[k + 1];
      }
      AssignKeeps(d[plan[0].0 := plan[0].1.value], plan[1..], key);
    }
  }

  /** The kind of node an enrich function handles. */
  datatype Kind = Windows | Doors | Spaces

  function Prefix(kind: Kind): string
  {
    match kind
    case Windows => "Window_"
    case Doors => "Door_"
    case Spaces => "Room_"
  }

  function ObjectName(kind: Kind): string
  {
    match kind
    case Windows => "Window"
    case Doors => "Door"
    case Spaces => "Room"
  }

  function PlanOf(kind: Kind, e: Entity): Plan
  {
    match kind
    case Windows => WindowPlan(e)
    case Doors => DoorPlan(e)
    case Spaces => SpacePlan(e)
  }

  lemma PlansAvoidObject(kind: Kind, e: Entity)
    ensures PlanAvoids(PlanOf(kind, e), "Object")
  {
  }

  /** One node of an enrich function. A node of another kind is left as it
    * is; a node of the kind gets its 'Object', and then, when its GlobalId
    * is truthy, the plan's attributes of the element `by_guid` returns; an
    * exception of the lookup ends the loop after 'Object' is set. */
  function NodeStep(name: string, d: NodeData, kind: Kind, byGuid: Attr -> Outcome<Entity>): (r: (NodeData, Option<PyException>))
    ensures forall k :: k in d ==> k in r.0
  {
    if !StartsWith(name, Prefix(kind)) then (d, None)
    else
      var marked := d["Object" := Str(ObjectName(kind))];
      match GlobalIdOf(marked)
      case None => (marked, None)
      case Some(g) =>
        match byGuid(g)
        case Raised(x) => (marked, Some(x))
        case Returned(e) => Assign(marked, PlanOf(kind, e))
  }

  /** A node of the kind carries its 'Object' after its step, raised or not. */
  lemma NodeStepMarks(name: string, d: NodeData, kind: Kind, byGuid: Attr -> Outcome<Entity>)
    requires StartsWith(name, Prefix(kind))
    ensures var r := NodeStep(name, d, kind, byGuid);
      "Object" in r.0 && r.0["Object"] == Str(ObjectName(kind))
  {
    var marked := d["Object" := Str(ObjectName(kind))];
    if GlobalIdOf(marked).Some? && byGuid(GlobalIdOf(marked).value).Returned? {
      var e := byGuid(GlobalIdOf(marked).value).value;
      PlansAvoidObject(kind, e);
      AssignKeeps(marked, PlanOf(kind, e), "Object");
    }
  }

  /** The data of all nodes after the loop over `nodes`, and the exception
    * that ended it, if any. */
  function EnrichRun(data: map<string, NodeData>, nodes: seq<string>, kind: Kind, byGuid: Attr -> Outcome<Entity>): (r: (map<string, NodeData>, Option<PyException>))
    requires forall k :: 0 <= k < |nodes| ==> nodes[k] in data
    ensures r.0.Keys == data.Keys
    decreases |nodes|
  {
    if |nodes| == 0 then (data, None)
    else
      var r := EnrichRun(data, nodes[..|nodes| - 1], kind, byGuid);
      if r.1.Some? then r
      else
        var n := nodes[|nodes| - 1];
        var step := NodeStep(n, r.0[n], kind, byGuid);
        (r.0[n := step.0], step.1)
  }

  lemma EnrichRunStep(data: map<string, NodeData>, nodes: seq<string>, kind: Kind, byGuid: Attr -> Outcome<Entity>, i: nat)
    requires forall k :: 0 <= k < |nodes| ==> nodes[k] in data
    requires i < |nodes|
    ensures var r := EnrichRun(data, nodes[..i], kind, byGuid);
      EnrichRun(data, nodes[..i + 1], kind, byGuid) ==
        if r.1.Some? then r
        else
          var step := NodeStep(nodes[i], r.0[nodes[i]], kind, byGuid);
          (r.0[nodes[i] := step.0], step.1)
  {
    assert nodes[..i + 1][..i] == nodes[..i];
  }

  /** A node whose name lacks the prefix is never touched. */
  lemma {:induction false} OtherNodesUntouched(data: map<string, NodeData>, nodes: seq<string>, kind: Kind, byGuid: Attr -> Outcome<Entity>, n: string)
    requires forall k :: 0 <= k < |nodes| ==> nodes[k] in data
    requires n in data && !StartsWith(n, Prefix(kind))
    ensures EnrichRun(data, nodes, kind, byGuid).0[n] == data[n]
    decreases |nodes|
  {
    if |nodes| > 0 {
      OtherNodesUntouched(data, nodes[..|nodes| - 1], kind, byGuid, n);
    }
  }

  /** When no exception ends the loop, every node of the kind that was
    * visited carries its 'Object', whether or not it has a GlobalId. */
  lemma {:induction false} VisitedNodesMarked(data: map<string, NodeData>, nodes: seq<string>, kind: Kind, byGuid: Attr -> Outcome<Entity>)
    requires forall k :: 0 <= k < |nodes| ==> nodes[k] in data
    requires EnrichRun(data, nodes, kind, byGuid).1.None?
    ensures var d := EnrichRun(data, nodes, kind, byGuid).0;
      forall k :: 0 <= k < |nodes| && StartsWith(nodes[k], Prefix(kind)) ==>
        "Object" in d[nodes[k]] && d[nodes[k]]["Object"] == Str(ObjectName(kind))
    decreases |nodes|
  {
    if |nodes| > 0 {
      var init := nodes[..|nodes| - 1];
      var n := nodes[|nodes| - 1];
      var r := EnrichRun(data, init, kind, byGuid);
      VisitedNodesMarked(data, init, kind, byGuid);
      var d := EnrichRun(data, nodes, kind, byGuid).0;
      var step := NodeStep(n, r.0[n], kind, byGuid);
      forall k | 0 <= k < |nodes| && StartsWith(nodes[k], Prefix(kind))
        ensures "Object" in d[nodes[k]] && d[nodes[k]]["Object"] == Str(ObjectName(kind))
      {
        if nodes[k] == n {
          NodeStepMarks(n, r.0[n], kind, byGuid);
        } else {
          assert init[k] == nodes[k];
          var old_ := r.0[nodes[k]];
          if StartsWith(n, Prefix(kind)) {
            NodeStepMarks(n, r.0[n], kind, byGuid);
          }
          assert d[nodes[k]] == old_;
        }
      }
    }
  }

  /** The long name written on a room node is "N/A" when the space has no
    * LongName or an empty one. */
  lemma MissingLongNameIsNA(e: Entity)
    requires e.longName.None? || e.longName == Some("")
    ensures SpacePlan(e)[0] == ("Long Name", Returned(Str("N/A")))
  {
  }

  /** The graph the enrich functions update in place: its nodes in
    * insertion order and each node's attribute dictionary. */
  class AttributedGraph {
    var nodes: seq<string>
    var data: map<string, NodeData>

    predicate Valid()
      reads this
    {
      Distinct(nodes) && forall k :: 0 <= k < |nodes| ==> nodes[k] in data
    }

    constructor (nodes: seq<string>, data: map<string, NodeData>)
      requires Distinct(nodes) && forall k :: 0 <= k < |nodes| ==> nodes[k] in data
      ensures Valid() && this.nodes == nodes && this.data == data
    {
      this.nodes := nodes;
      this.data := data;
    }

    /** `enrich_graph_with_ifc_data(graph, ifc_file, names)`. Every node
      * is enriched from its own old data, in order, until a lookup raises:
      * the nodes before it stay enriched, it and the nodes after it keep
      * their old data, and its exception is returned. */
    method EnrichGraphWithIfcData(byGuid: Attr -> Outcome<Entity>, names: seq<string>) returns (raised: Option<PyException>)
      requires Valid()
      modifies this
      ensures Valid() && nodes == old(nodes) && data.Keys == old(data).Keys
      ensures forall n :: n in data && n !in nodes ==> data[n] == old(data)[n]
      ensures raised.None? ==> forall k :: 0 <= k < |nodes| ==>
        EnrichNode(old(data)[nodes[k]], byGuid, names) == Returned(data[nodes[k]])
      ensures raised.Some? ==> exists i :: (0 <= i < |nodes| &&
        EnrichNode(old(data)[nodes[i]], byGuid, names) == Raised(raised.value) &&
        (forall k :: 0 <= k < i ==> EnrichNode(old(data)[nodes[k]], byGuid, names) == Returned(data[nodes[k]])) &&
        (forall k :: i <= k < |nodes| ==> data[nodes[k]] == old(data)[nodes[k]]))
    {
      for i := 0 to |nodes|
        invariant Valid() && nodes == old(nodes) && data.Keys == old(data).Keys
        invariant forall k :: 0 <= k < i ==> EnrichNode(old(data)[nodes[k]], byGuid, names) == Returned(data[nodes[k]])
        invariant forall k :: i <= k < |nodes| ==> data[nodes[k]] == old(data)[nodes[k]]
        invariant forall n :: n in data && n !in nodes ==> data[n] == old(data)[n]
      {
        var node := nodes[i];
        var enriched := EnrichOne(data[node], byGuid, names);
        if enriched.Raised? {
          return Some(enriched.exc);
        }
        data := data[node := enriched.value];
      }
      raised := None;
    }

    /** The loop of `enrich_graph_with_ifc<kind>_data`; an exception from
      * reading a property ends it and is returned. */
    method EnrichKind(kind: Kind, byGuid: Attr -> Outcome<Entity>) returns (raised: Option<PyException>)
      requires Valid()
      modifies this
      ensures Valid() && nodes == old(nodes)
      ensures (data, raised) == EnrichRun(old(data), nodes, kind, byGuid)
    {
      var result;
      result, raised := RunEnrich(data, nodes, kind, byGuid);
      data := result;
    }

    method EnrichGraphWithIfcWindowData(byGuid: Attr -> Outcome<Entity>) returns (raised: Option<PyException>)
      requires Valid()
      modifies this
      ensures Valid() && nodes == old(nodes)
      ensures (data, raised) == EnrichRun(old(data), nodes, Windows, byGuid)
    {
      raised := EnrichKind(Windows, byGuid);
    }

    method EnrichGraphWithIfcDoorData(byGuid: Attr -> Outcome<Entity>) returns (raised: Option<PyException>)
      requires Valid()
      modifies this
      ensures Valid() && nodes == old(nodes)
      ensures (data, raised) == EnrichRun(old(data), nodes, Doors, byGuid)
    {
      raised := EnrichKind(Doors, byGuid);
    }

    method EnrichGraphWithIfcSpaceData(byGuid: Attr -> Outcome<Entity>) returns (raised: Option<PyException>)
      requires Valid()
      modifies this
      ensures Valid() && nodes == old(nodes)
      ensures (data, raised) == EnrichRun(old(data), nodes, Spaces, byGuid)
    {
      raised := EnrichKind(Spaces, byGuid);
    }
  }

  method RunEnrich(start: map<string, NodeData>, nodes: seq<string>, kind: Kind, byGuid: Attr -> Outcome<Entity>)
    returns (result: map<string, NodeData>, raised: Option<PyException>)
    requires forall k :: 0 <= k < |nodes| ==> nodes[k] in start
    ensures (result, raised) == EnrichRun(start, nodes, kind, byGuid)
  {
    result := start;
    for i := 0 to |nodes|
      invariant result.Keys == start.Keys
      invariant (result, None) == EnrichRun(start, nodes[..i], kind, byGuid)
    {
      EnrichRunStep(start, nodes, kind, byGuid, i);
      assert nodes[i] in result;
      var step := NodeStep(nodes[i], result[nodes[i]], kind, byGuid);
      result := result[nodes[i] := step.0];
      if step.1.Some? {
        EnrichRunStays(start, nodes, kind, byGuid, i + 1);
        return result, step.1;
      }
    }
    assert nodes[..|nodes|] == nodes;
    raised := None;
  }

  lemma {:induction false} EnrichRunStays(data: map<string, NodeData>, nodes: seq<string>, kind: Kind, byGuid: Attr -> Outcome<Entity>, n: nat)
    requires forall k :: 0 <= k < |nodes| ==> nodes[k] in data
    requires n <= |nodes| && EnrichRun(data, nodes[..n], kind, byGuid).1.Some?
    ensures EnrichRun(data, nodes, kind, byGuid) == EnrichRun(data, nodes[..n], kind, byGuid)
    decreases |nodes| - n
  {
    if n < |nodes| {
      EnrichRunStep(data, nodes, kind, byGuid, n);
      EnrichRunStays(data, nodes, kind, byGuid, n + 1);
    } else {
      assert nodes[..n] == nodes;
    }
  }
}
