/**
 * Reading properties and quantities off an IFC element: `extract_quantities`
 * (the Height, GrossFloorArea and GrossVolume of a space),
 * `extract_property_value` (the first property of a given name in the
 * element's property sets) and the room nodes `create_ifcspace_nodes`
 * builds from them.
 */
module IfcProperties {
  import opened Common
  import opened Ifc
  import IfcText

  // ---------------------------------------------------------------------
  // extract_quantities

  datatype Quantities = Quantities(height: Option<real>, grossFloorArea: Option<real>, grossVolume: Option<real>)

  const NoQuantities: Quantities := Quantities(None, None, None)

  /** The quantity kind whose value attribute the code reads for a name:
    * LengthValue for Height, AreaValue for GrossFloorArea, VolumeValue for
    * GrossVolume; other names are not read. */
  function ReadKind(name: string): Option<QuantityKind>
  {
    if name == "Height" then Some(LengthQuantity)
    else if name == "GrossFloorArea" then Some(AreaQuantity)
    else if name == "GrossVolume" then Some(VolumeQuantity)
    else None
  }

  /** A quantity whose value attribute can be read: an unread name, or a
    * read name of the matching kind. */
  predicate Readable(q: Quantity)
  {
    ReadKind(q.name).None? || q.kind == ReadKind(q.name).value
  }

  /** One turn of the inner loop. Reading the value attribute of another
    * kind of quantity raises AttributeError. */
  function ReadQuantity(acc: Quantities, q: Quantity): (r: Outcome<Quantities>)
    ensures r.Raised? <==> !Readable(q)
  {
    match ReadKind(q.name)
    case None => Returned(acc)
    case Some(kind) =>
      if q.kind != kind then Raised(AttributeError)
      else if q.name == "Height" then Returned(acc.(height := Some(q.value)))
      else if q.name == "GrossFloorArea" then Returned(acc.(grossFloorArea := Some(q.value)))
      else Returned(acc.(grossVolume := Some(q.value)))
  }

  /** The inner loop over one element quantity's Quantities. */
  function ReadQuantities(acc: Quantities, qs: seq<Quantity>): Outcome<Quantities>
    decreases |qs|
  {
    if |qs| == 0 then Returned(acc)
    else
      match ReadQuantities(acc, qs[..|qs| - 1])
      case Raised(e) => Raised(e)
      case Returned(a) => ReadQuantity(a, qs[|qs| - 1])
  }

  /** One turn of the outer loop. A relation without a
    * RelatingPropertyDefinition raises AttributeError; only an element
    * quantity has Quantities. */
  function ReadDefinition(acc: Quantities, d: Definition): Outcome<Quantities>
  {
    match d
    case DefinesByType => Raised(AttributeError)
    case DefinesByProperties(QuantitySet(qs)) => ReadQuantities(acc, qs)
    case DefinesByProperties(_) => Returned(acc)
  }

  function ReadDefinitions(ds: seq<Definition>): Outcome<Quantities>
    decreases |ds|
  {
    if |ds| == 0 then Returned(NoQuantities)
    else
      match ReadDefinitions(ds[..|ds| - 1])
      case Raised(e) => Raised(e)
      case Returned(a) => ReadDefinition(a, ds[|ds| - 1])
  }

  /** `extract_quantities(element)`, the element given by its IsDefinedBy;
    * None stands for a missing element. */
  function QuantitiesOf(element: Option<seq<Definition>>): Outcome<Quantities>
  {
    match element
    case None => Returned(NoQuantities)
    case Some(ds) => ReadDefinitions(ds)
  }

  method ReadQuantitySet(acc: Quantities, qs: seq<Quantity>) returns (r: Outcome<Quantities>)
    ensures r == ReadQuantities(acc, qs)
  {
    var current := acc;
    for j := 0 to |qs|
      invariant ReadQuantities(acc, qs[..j]) == Returned(current)
    {
      assert qs[..j + 1][..j] == qs[..j];
      var q := qs[j];
      if q.name == "Height" {
        if q.kind != LengthQuantity {
          ReadQuantitiesRaisedStays(acc, qs, j + 1);
          return Raised(AttributeError);
        }
        current := current.(height := Some(q.value));
      } else if q.name == "GrossFloorArea" {
        if q.kind != AreaQuantity {
          ReadQuantitiesRaisedStays(acc, qs, j + 1);
          return Raised(AttributeError);
        }
        current := current.(grossFloorArea := Some(q.value));
      } else if q.name == "GrossVolume" {
        if q.kind != VolumeQuantity {
          ReadQuantitiesRaisedStays(acc, qs, j + 1);
          return Raised(AttributeError);
        }
        current := current.(grossVolume := Some(q.value));
      }
    }
    assert qs[..|qs|] == qs;
    r := Returned(current);
  }

  method ExtractQuantities(element: Option<seq<Definition>>) returns (r: Outcome<Quantities>)
    ensures r == QuantitiesOf(element)
  {
    if element.None? {
      return Returned(NoQuantities);
    }
    var ds := element.value;
    var current := NoQuantities;
    for i := 0 to |ds|
      invariant ReadDefinitions(ds[..i]) == Returned(current)
    {
      assert ds[..i + 1][..i] == ds[..i];
      var step: Outcome<Quantities>;
      match ds[i] {
        case DefinesByType =>
          step := Raised(AttributeError);
        case DefinesByProperties(definition) =>
          if definition.QuantitySet? {
            step := ReadQuantitySet(current, definition.quantities);
          } else {
            step := Returned(current);
          }
      }
      assert step == ReadDefinition(current, ds[i]);
      if step.Raised? {
        ReadDefinitionsRaisedStays(ds, i + 1, step.exc);
        return step;
      }
      current := step.value;
    }
    assert ds[..|ds|] == ds;
    r := Returned(current);
  }

  lemma {:induction false} ReadQuantitiesRaisedStays(acc: Quantities, qs: seq<Quantity>, n: nat)
    requires n <= |qs| && ReadQuantities(acc, qs[..n]) == Raised(AttributeError)
    ensures ReadQuantities(acc, qs) == Raised(AttributeError)
    decreases |qs| - n
  {
    if n < |qs| {
      assert qs[..n + 1][..n] == qs[..n];
      ReadQuantitiesRaisedStays(acc, qs, n + 1);
    } else {
      assert qs[..n] == qs;
    }
  }

  lemma {:induction false} ReadDefinitionsRaisedStays(ds: seq<Definition>, n: nat, e: PyException)
    requires n <= |ds| && ReadDefinitions(ds[..n]) == Raised(e)
    ensures ReadDefinitions(ds) == Raised(e)
    decreases |ds| - n
  {
    if n < |ds| {
      assert ds[..n + 1][..n] == ds[..n];
      ReadDefinitionsRaisedStays(ds, n + 1, e);
    } else {
      assert ds[..n] == ds;
    }
  }

  // The reference reading: the last quantity of each name, over all
  // element quantities in relation order.

  function QuantitiesIn(d: Definition): seq<Quantity>
  {
    if d.DefinesByProperties? && d.relatingPropertyDefinition.QuantitySet? then d.relatingPropertyDefinition.quantities
    else []
  }

  function AllQuantities(ds: seq<Definition>): seq<Quantity>
    decreases |ds|
  {
    if |ds| == 0 then [] else AllQuantities(ds[..|ds| - 1]) + QuantitiesIn(ds[|ds| - 1])
  }

  /** The value of the last quantity named `name`. */
  function LastValue(qs: seq<Quantity>, name: string): Option<real>
    decreases |qs|
  {
    if |qs| == 0 then None
    else if qs[|qs| - 1].name == name then Some(qs[|qs| - 1].value)
    else LastValue(qs[..|qs| - 1], name)
  }

  /** No value when no quantity has the name; otherwise the value of the
    * last quantity with that name. */
  lemma {:induction false} LastValueMeaning(qs: seq<Quantity>, name: string)
    ensures LastValue(qs, name).None? <==> forall k :: 0 <= k < |qs| ==> qs[k].name != name
    ensures LastValue(qs, name).Some? ==> exists k :: (0 <= k < |qs| && qs[k].name == name && qs[k].value == LastValue(qs, name).value &&
      forall k' :: k < k' < |qs| ==> qs[k'].name != name)
    decreases |qs|
  {
    if |qs| > 0 && qs[|qs| - 1].name != name {
      var init := qs[..|qs| - 1];
      LastValueMeaning(init, name);
      assert forall k :: 0 <= k < |init| ==> init[k] == qs[k];
      if LastValue(init, name).Some? {
        var k :| 0 <= k < |init| && init[k].name == name && init[k].value == LastValue(init, name).value &&
          forall k' :: k < k' < |init| ==> init[k'].name != name;
        assert qs[k].name == name;
      }
    }
  }

  function Latest(qs: seq<Quantity>): Quantities
  {
    Quantities(LastValue(qs, "Height"), LastValue(qs, "GrossFloorArea"), LastValue(qs, "GrossVolume"))
  }

  function Or(a: Option<real>, b: Option<real>): Option<real>
  {
    if a.Some? then a else b
  }

  /** acc with every value that qs sets replaced by qs's last one. */
  function Overlay(acc: Quantities, qs: seq<Quantity>): Quantities
  {
    Quantities(
      Or(LastValue(qs, "Height"), acc.height),
      Or(LastValue(qs, "GrossFloorArea"), acc.grossFloorArea),
      Or(LastValue(qs, "GrossVolume"), acc.grossVolume))
  }

  predicate AllReadable(qs: seq<Quantity>)
  {
    forall k :: 0 <= k < |qs| ==> Readable(qs[k])
  }

  /** The elements the code reads without error: no relation lacks a
    * RelatingPropertyDefinition and every read quantity has its kind. */
  predicate WellFormed(ds: seq<Definition>)
  {
    (forall k :: 0 <= k < |ds| ==> ds[k].DefinesByProperties?) && AllReadable(AllQuantities(ds))
  }

  lemma {:induction false} LastValueAppend(xs: seq<Quantity>, ys: seq<Quantity>, name: string)
    ensures LastValue(xs + ys, name) == Or(LastValue(ys, name), LastValue(xs, name))
    decreases |ys|
  {
    if |ys| == 0 {
      assert xs + ys == xs;
    } else {
      var zs := xs + ys;
      assert zs[|zs| - 1] == ys[|ys| - 1];
      if ys[|ys| - 1].name != name {
        assert zs[..|zs| - 1] == xs + ys[..|ys| - 1];
        LastValueAppend(xs, ys[..|ys| - 1], name);
      }
    }
  }

  lemma {:induction false} ReadQuantitiesMeaning(acc: Quantities, qs: seq<Quantity>)
    ensures ReadQuantities(acc, qs) == if AllReadable(qs) then Returned(Overlay(acc, qs)) else Raised(AttributeError)
    decreases |qs|
  {
    if |qs| > 0 {
      var init := qs[..|qs| - 1];
      var q := qs[|qs| - 1];
      ReadQuantitiesMeaning(acc, init);
      assert qs == init + [q];
      assert AllReadable(qs) <==> AllReadable(init) && Readable(q) by {
        assert forall k :: 0 <= k < |init| ==> init[k] == qs[k];
      }
      if AllReadable(init) {
        LastValueAppend(init, [q], "Height");
        LastValueAppend(init, [q], "GrossFloorArea");
        LastValueAppend(init, [q], "GrossVolume");
      }
    }
  }

  lemma AllQuantitiesStep(ds: seq<Definition>)
    requires |ds| > 0
    ensures AllQuantities(ds) == AllQuantities(ds[..|ds| - 1]) + QuantitiesIn(ds[|ds| - 1])
  {
  }

  lemma OverlayLatest(xs: seq<Quantity>, ys: seq<Quantity>)
    ensures Overlay(Latest(xs), ys) == Latest(xs + ys)
  {
    LastValueAppend(xs, ys, "Height");
    LastValueAppend(xs, ys, "GrossFloorArea");
    LastValueAppend(xs, ys, "GrossVolume");
  }

  lemma AllReadableAppend(xs: seq<Quantity>, ys: seq<Quantity>)
    ensures AllReadable(xs + ys) <==> AllReadable(xs) && AllReadable(ys)
  {
    var zs := xs + ys;
    if AllReadable(xs) && AllReadable(ys) {
      forall k | 0 <= k < |zs|
        ensures Readable(zs[k])
      {
        if k >= |xs| {
          assert zs[k] == ys[k - |xs|];
        }
      }
    }
    if AllReadable(zs) {
      assert forall k :: 0 <= k < |xs| ==> zs[k] == xs[k];
      assert forall k :: 0 <= k < |ys| ==> zs[|xs| + k] == ys[k];
    }
  }

  /** extract_quantities reads the last Height, GrossFloorArea and
    * GrossVolume of all element quantities, each None when absent, and
    * raises AttributeError exactly on an element it cannot read. */
  lemma {:induction false} ReadDefinitionsMeaning(ds: seq<Definition>)
    ensures ReadDefinitions(ds) == if WellFormed(ds) then Returned(Latest(AllQuantities(ds))) else Raised(AttributeError)
    decreases |ds|
  {
    if |ds| > 0 {
      var init := ds[..|ds| - 1];
      var d := ds[|ds| - 1];
      ReadDefinitionsMeaning(init);
      AllQuantitiesStep(ds);
      AllReadableAppend(AllQuantities(init), QuantitiesIn(d));
      assert forall k :: 0 <= k < |init| ==> init[k] == ds[k];
      if WellFormed(init) {
        match d
        case DefinesByType =>
        case DefinesByProperties(def) =>
          if def.QuantitySet? {
            ReadQuantitiesMeaning(Latest(AllQuantities(init)), def.quantities);
            OverlayLatest(AllQuantities(init), def.quantities);
          } else {
            assert AllQuantities(init) + [] == AllQuantities(init);
          }
      }
    }
  }

  /** Without a quantity of a name, that value stays None. */
  lemma AbsentQuantityStaysNone(ds: seq<Definition>, name: string)
    requires WellFormed(ds)
    requires forall k :: 0 <= k < |AllQuantities(ds)| ==> AllQuantities(ds)[k].name != name
    ensures name == "Height" ==> ReadDefinitions(ds) == Returned(Latest(AllQuantities(ds))) && ReadDefinitions(ds).value.height.None?
    ensures name == "GrossFloorArea" ==> ReadDefinitions(ds).Returned? && ReadDefinitions(ds).value.grossFloorArea.None?
    ensures name == "GrossVolume" ==> ReadDefinitions(ds).Returned? && ReadDefinitions(ds).value.grossVolume.None?
  {
    ReadDefinitionsMeaning(ds);
    LastValueMeaning(AllQuantities(ds), name);
  }

  // ---------------------------------------------------------------------
  // extract_property_value

  /** The properties the nested loops visit: HasProperties of every
    * property set of every IfcRelDefinesByProperties, in relation order. */
  function PropertiesIn(d: Definition): seq<Property>
  {
    if d.DefinesByProperties? && d.relatingPropertyDefinition.PropertySet? then d.relatingPropertyDefinition.properties
    else []
  }

  function VisitedProperties(ds: seq<Definition>): seq<Property>
    decreases |ds|
  {
    if |ds| == 0 then [] else PropertiesIn(ds[0]) + VisitedProperties(ds[1..])
  }

  /** The value types a branch of the code handles. */
  predicate IsValueType(valueType: string)
  {
    valueType == "text" || valueType == "number" || valueType == "area" || valueType == "bool"
  }

  /** The result of a branch for a wrappedValue. Text is decoded (a value
    * that is not text makes the decoder raise TypeError); number and area
    * apply `round`, which raises TypeError on text and turns a boolean
    * into 0 or 1; bool returns the value itself. */
  function Convert(v: Value, valueType: string): (r: Outcome<Option<Value>>)
    requires IsValueType(valueType)
    ensures r.Raised? <==> (valueType != "bool" && (valueType == "text") != v.Text?)
    ensures valueType == "bool" ==> r == Returned(Some(v))
  {
    if valueType == "text" then
      if v.Text? then Returned(Some(Text(IfcText.SequentialDecode(v.text)))) else Raised(TypeError)
    else if valueType == "bool" then Returned(Some(v))
    else
      match v
      case Text(_) => Raised(TypeError)
      case Logical(b) => Returned(Some(Integer(if b then 1 else 0)))
      case _ => Returned(Some(v))
  }

  /** What the loop body does with one property: None to go on, Some(o) to
    * leave the function with o. A property without a NominalValue
    * attribute raises AttributeError; one whose NominalValue is unset is
    * passed over. */
  function PropertyStep(p: Property, name: string, valueType: string): Option<Outcome<Option<Value>>>
  {
    if p.name != name || !IsValueType(valueType) then None
    else
      match p
      case OtherProperty(_) => Some(Raised(AttributeError))
      case SingleValue(_, nominal) =>
        if nominal.None? then None else Some(Convert(nominal.value, valueType))
  }

  predicate Fires(p: Property, name: string, valueType: string)
  {
    PropertyStep(p, name, valueType).Some?
  }

  /** The first property that ends the loop, and how it ends it. */
  function FirstFiring(ps: seq<Property>, name: string, valueType: string): Option<Outcome<Option<Value>>>
    decreases |ps|
  {
    if |ps| == 0 then None
    else if Fires(ps[0], name, valueType) then PropertyStep(ps[0], name, valueType)
    else FirstFiring(ps[1..], name, valueType)
  }

  /** `extract_property_value(element, name, value_type)` for an element
    * with IsDefinedBy `definedBy`. */
  function PropertyValue(definedBy: seq<Definition>, name: string, valueType: string): Outcome<Option<Value>>
  {
    match FirstFiring(VisitedProperties(definedBy), name, valueType)
    case None => Returned(None)
    case Some(o) => o
  }

  method ScanProperties(ps: seq<Property>, name: string, valueType: string) returns (found: Option<Outcome<Option<Value>>>)
    ensures found == FirstFiring(ps, name, valueType)
  {
    for j := 0 to |ps|
      invariant FirstFiring(ps[j..], name, valueType) == FirstFiring(ps, name, valueType)
    {
      assert ps[j..][1..] == ps[j + 1..];
      var prop := ps[j];
      if prop.name == name && IsValueType(valueType) {
        match prop
        case OtherProperty(_) =>
          return Some(Raised(AttributeError));
        case SingleValue(_, nominal) =>
          if nominal.Some? {
            return Some(Convert(nominal.value, valueType));
          }
      }
    }
    found := None;
  }

  method ExtractPropertyValue(definedBy: seq<Definition>, name: string, valueType: string) returns (r: Outcome<Option<Value>>)
    ensures r == PropertyValue(definedBy, name, valueType)
  {
    for i := 0 to |definedBy|
      invariant FirstFiring(VisitedProperties(definedBy[i..]), name, valueType) == FirstFiring(VisitedProperties(definedBy), name, valueType)
    {
      var rest := definedBy[i..];
      assert rest[1..] == definedBy[i + 1..];
      FirstFiringAppend(PropertiesIn(definedBy[i]), VisitedProperties(definedBy[i + 1..]), name, valueType);
      var rel := definedBy[i];
      if rel.DefinesByProperties? && rel.relatingPropertyDefinition.PropertySet? {
        var found := ScanProperties(rel.relatingPropertyDefinition.properties, name, valueType);
        if found.Some? {
          return found.value;
        }
      }
    }
    r := Returned(None);
  }

  lemma {:induction false} FirstFiringAppend(xs: seq<Property>, ys: seq<Property>, name: string, valueType: string)
    ensures FirstFiring(xs + ys, name, valueType) ==
      if FirstFiring(xs, name, valueType).Some? then FirstFiring(xs, name, valueType) else FirstFiring(ys, name, valueType)
    decreases |xs|
  {
    if |xs| == 0 {
      assert xs + ys == ys;
    } else {
      assert (xs + ys)[0] == xs[0] && (xs + ys)[1..] == xs[1..] + ys;
      FirstFiringAppend(xs[1..], ys, name, valueType);
    }
  }

  /** The reference reading of the search: nothing fires and the result is
    * None, or the result is what the first property that fires gives. */
  lemma {:induction false} FirstFiringMeaning(ps: seq<Property>, name: string, valueType: string)
    ensures FirstFiring(ps, name, valueType).None? <==> forall k :: 0 <= k < |ps| ==> !Fires(ps[k], name, valueType)
    ensures FirstFiring(ps, name, valueType).Some? ==> exists k :: (0 <= k < |ps| &&
      FirstFiring(ps, name, valueType) == PropertyStep(ps[k], name, valueType) &&
      forall k' :: 0 <= k' < k ==> !Fires(ps[k'], name, valueType))
    decreases |ps|
  {
    if |ps| > 0 {
      FirstFiringMeaning(ps[1..], name, valueType);
      assert forall k :: 1 <= k < |ps| ==> ps[1..][k - 1] == ps[k];
      if !Fires(ps[0], name, valueType) && FirstFiring(ps, name, valueType).Some? {
        var k :| 0 <= k < |ps[1..]| && FirstFiring(ps[1..], name, valueType) == PropertyStep(ps[1..][k], name, valueType) &&
          forall k' :: 0 <= k' < k ==> !Fires(ps[1..][k'], name, valueType);
        assert FirstFiring(ps, name, valueType) == PropertyStep(ps[k + 1], name, valueType);
        assert forall k' :: 0 <= k' < k + 1 ==> !Fires(ps[k'], name, valueType) by {
          forall k' | 0 <= k' < k + 1
            ensures !Fires(ps[k'], name, valueType)
          {
            if k' > 0 {
              assert ps[1..][k' - 1] == ps[k'];
            }
          }
        }
      }
    }
  }

  /** An element none of whose visited properties carries the name gives
    * None, whatever the value type. */
  lemma {:induction false} NoSuchPropertyGivesNone(definedBy: seq<Definition>, name: string, valueType: string)
    requires forall k :: 0 <= k < |VisitedProperties(definedBy)| ==> VisitedProperties(definedBy)[k].name != name
    ensures PropertyValue(definedBy, name, valueType) == Returned(None)
  {
    FirstFiringMeaning(VisitedProperties(definedBy), name, valueType);
  }

  /** A value type none of the branches handles gives None and never raises. */
  lemma {:induction false} UnknownValueTypeGivesNone(definedBy: seq<Definition>, name: string, valueType: string)
    requires !IsValueType(valueType)
    ensures PropertyValue(definedBy, name, valueType) == Returned(None)
  {
    FirstFiringMeaning(VisitedProperties(definedBy), name, valueType);
  }

  /** The first property of the name with a set value decides: for bool its
    * value itself, for text its decoding. */
  lemma FirstNamedPropertyDecides(ps: seq<Property>, k: nat, name: string, valueType: string, v: Value)
    requires k < |ps| && ps[k] == SingleValue(name, Some(v)) && IsValueType(valueType)
    requires forall k' :: 0 <= k' < k ==> ps[k'].name != name
    ensures FirstFiring(ps, name, valueType) == Some(Convert(v, valueType))
  {
    FirstFiringMeaning(ps, name, valueType);
  }

  /** Text without a backslash is returned as it is. */
  lemma PlainTextKept(t: string)
    requires '\\' !in t
    ensures Convert(Text(t), "text") == Returned(Some(Text(t)))
  {
    IfcText.PlainTextUnchanged(t);
  }

  // ---------------------------------------------------------------------
  // create_ifcspace_nodes

  /** The name a room node gets: its decoded LongName, or "N/A" when the
    * LongName is unset or empty. */
  function RoomName(longName: Option<string>): (n: string)
    ensures longName.None? || longName == Some("") ==> n == "N/A"
  {
    if longName.None? || longName.value == "" then "N/A" else IfcText.SequentialDecode(longName.value)
  }

  /** A long name without a backslash, written in the escape form, is read
    * back as it was. */
  lemma RoomNameDecodes(name: string)
    requires name != "" && '\\' !in name
    ensures RoomName(Some(IfcText.Encode(name))) == name
  {
    IfcText.SequentialDecodeEncode(name);
    assert IfcText.Encode(name) != "" by {
      assert IfcText.Encode(name) == IfcText.EncodeChar(name[0]) + IfcText.Encode(name[1..]);
    }
  }

  /** The data of a room node: its GlobalId, OID, Name and quantities. */
  datatype RoomNode = RoomNode(globalId: string, oid: EntityId, name: string, quantities: Quantities)

  function SpaceNode(space: Space): Outcome<RoomNode>
  {
    match QuantitiesOf(Some(space.isDefinedBy))
    case Raised(e) => Raised(e)
    case Returned(q) => Returned(RoomNode(space.globalId, space.id, RoomName(space.longName), q))
  }

  /** The nodes written before the loop ends, and the exception that ended
    * it early, if any. */
  datatype NodeRun = NodeRun(nodes: seq<RoomNode>, raised: Option<PyException>)

  function SpaceNodes(spaces: seq<Space>): NodeRun
    decreases |spaces|
  {
    if |spaces| == 0 then NodeRun([], None)
    else
      var r := SpaceNodes(spaces[..|spaces| - 1]);
      if r.raised.Some? then r
      else
        match SpaceNode(spaces[|spaces| - 1])
        case Raised(e) => NodeRun(r.nodes, Some(e))
        case Returned(n) => NodeRun(r.nodes + [n], None)
  }

  method CreateIfcSpaceNodes(spaces: seq<Space>) returns (nodes: seq<RoomNode>, raised: Option<PyException>)
    ensures NodeRun(nodes, raised) == SpaceNodes(spaces)
  {
    nodes := [];
    for i := 0 to |spaces|
      invariant SpaceNodes(spaces[..i]) == NodeRun(nodes, None)
    {
      assert spaces[..i + 1][..i] == spaces[..i];
      var space := spaces[i];
      var longName := RoomName(space.longName);
      var quantities := ExtractQuantities(Some(space.isDefinedBy));
      if quantities.Raised? {
        SpaceNodesRaisedStays(spaces, i + 1, quantities.exc);
        return nodes, Some(quantities.exc);
      }
      nodes := nodes + [RoomNode(space.globalId, space.id, longName, quantities.value)];
    }
    assert spaces[..|spaces|] == spaces;
    raised := None;
  }

  lemma {:induction false} SpaceNodesRaisedStays(spaces: seq<Space>, n: nat, e: PyException)
    requires n <= |spaces| && SpaceNodes(spaces[..n]).raised == Some(e)
    ensures SpaceNodes(spaces) == SpaceNodes(spaces[..n])
    decreases |spaces| - n
  {
    if n < |spaces| {
      assert spaces[..n + 1][..n] == spaces[..n];
      SpaceNodesRaisedStays(spaces, n + 1, e);
    } else {
      assert spaces[..n] == spaces;
    }
  }

  /** The node a readable space is meant to give: its GlobalId, OID, name
    * and last quantities. */
  function NodeOf(space: Space): RoomNode
  {
    RoomNode(space.globalId, space.id, RoomName(space.longName), Latest(AllQuantities(space.isDefinedBy)))
  }

  /** A space gives a node exactly when its quantities can be read. */
  lemma SpaceNodeMeaning(space: Space)
    ensures SpaceNode(space) == if WellFormed(space.isDefinedBy) then Returned(NodeOf(space)) else Raised(AttributeError)
  {
    ReadDefinitionsMeaning(space.isDefinedBy);
  }

  /** The loop stops at the first space whose quantities cannot be read,
    * with AttributeError, having written a node for every space before it. */
  lemma {:induction false} SpaceNodesStop(spaces: seq<Space>)
    ensures var r := SpaceNodes(spaces);
      (r.raised.None? <==> forall k :: 0 <= k < |spaces| ==> WellFormed(spaces[k].isDefinedBy)) &&
      (r.raised.None? ==> |r.nodes| == |spaces|) &&
      (r.raised.Some? ==>
         |r.nodes| < |spaces| && r.raised == Some(AttributeError) &&
         !WellFormed(spaces[|r.nodes|].isDefinedBy) &&
         forall k :: 0 <= k < |r.nodes| ==> WellFormed(spaces[k].isDefinedBy))
    decreases |spaces|
  {
    if |spaces| > 0 {
      var init := spaces[..|spaces| - 1];
      SpaceNodesStop(init);
      SpaceNodeMeaning(spaces[|spaces| - 1]);
      assert forall k :: 0 <= k < |init| ==> init[k] == spaces[k];
    }
  }

  /** Each node written is the node of the space at its position; when the
    * loop does not stop early there is one node per space. */
  lemma {:induction false} SpaceNodesContents(spaces: seq<Space>)
    ensures var r := SpaceNodes(spaces);
      |r.nodes| <= |spaces| && (r.raised.None? ==> |r.nodes| == |spaces|) &&
      forall k :: 0 <= k < |r.nodes| ==> r.nodes[k] == NodeOf(spaces[k])
    decreases |spaces|
  {
    if |spaces| > 0 {
      var init := spaces[..|spaces| - 1];
      var s := spaces[|spaces| - 1];
      SpaceNodesContents(init);
      SpaceNodeMeaning(s);
      SpaceNodesLast(spaces);
      var r0 := SpaceNodes(init);
      var r := SpaceNodes(spaces);
      if r0.raised.None? && WellFormed(s.isDefinedBy) {
        assert r.nodes == r0.nodes + [NodeOf(s)];
        forall k | 0 <= k < |r.nodes| ensures r.nodes[k] == NodeOf(spaces[k]) {
          if k < |r0.nodes| {
            assert r.nodes[k] == r0.nodes[k] && init[k] == spaces[k];
          }
        }
      } else {
        assert r.nodes == r0.nodes;
        forall k | 0 <= k < |r.nodes| ensures r.nodes[k] == NodeOf(spaces[k]) {
          assert init[k] == spaces[k];
        }
      }
    }
  }

  /** One more space: the run so far, then that space's node or exception. */
  lemma SpaceNodesLast(spaces: seq<Space>)
    requires |spaces| > 0
    ensures var r0 := SpaceNodes(spaces[..|spaces| - 1]);
      var o := SpaceNode(spaces[|spaces| - 1]);
      SpaceNodes(spaces) ==
        if r0.raised.Some? then r0
        else if o.Raised? then NodeRun(r0.nodes, Some(o.exc))
        else NodeRun(r0.nodes + [o.value], None)
  {
  }
}
