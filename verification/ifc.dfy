/**
 * IFC entities as the scripts read them through ifcopenshell: plain records
 * holding the attributes and inverse relations that are looked at. An entity
 * instance is identified by its step id (`entity.id()`); Python `==` between
 * two instances compares that identity.
 */
module Ifc {
  import opened Common

  type EntityId = nat

  /** `entity.is_a(cls)`: the class itself or, for the classes the scripts
    * test, one of its subtypes in the IFC4 schema (ISO 16739-1). */
  predicate IsA(entityType: string, cls: string)
  {
    entityType == cls
    || (cls == "IfcWall" && (entityType == "IfcWallStandardCase" || entityType == "IfcWallElementedCase"))
    || (cls == "IfcDoor" && entityType == "IfcDoorStandardCase")
    || (cls == "IfcWindow" && entityType == "IfcWindowStandardCase")
  }

  /** A spatial structure element: the RelatingStructure of a containment or
    * the RelatingObject of an aggregation. */
  datatype Structure = Structure(id: EntityId, entityType: string, name: Option<string>)
  {
    predicate IsStorey()
    {
      IsA(entityType, "IfcBuildingStorey")
    }
  }

  /** Python `==` between two optional entity instances: None equals only None. */
  predicate SameStructure(a: Option<Structure>, b: Option<Structure>)
  {
    if a.None? || b.None? then a.None? && b.None? else a.value.id == b.value.id
  }

  /** A building element (wall, door, window, opening, ...) with the
    * RelatingStructure of each relation in its inverse attribute
    * ContainedInStructure, in order, its Name and its IsDefinedBy
    * relations. */
  datatype Element = Element(
    id: EntityId, globalId: string, entityType: string, containedIn: seq<Structure>,
    name: Option<string>, isDefinedBy: seq<Definition>)

  /** An IfcRelContainedInSpatialStructure as `by_type` lists it. */
  datatype Containment = Containment(relatingStructure: Structure, relatedElements: seq<EntityId>)

  /** An entry of a space's Decomposes: an IfcRelAggregates or another
    * decomposition relation, with its RelatingObject. */
  datatype Decomposition = Decomposition(isAggregates: bool, relatingObject: Structure)

  /** The `wrappedValue` of a property's NominalValue. */
  datatype Value = Text(text: string) | Integer(n: int) | Logical(b: bool) | Measure(m: real)

  /** A property of a property set: a single value with an optional
    * NominalValue, or a property kind that has no NominalValue at all. */
  datatype Property = SingleValue(name: string, nominalValue: Option<Value>) | OtherProperty(name: string)

  datatype QuantityKind = LengthQuantity | AreaQuantity | VolumeQuantity | OtherQuantity

  /** An element quantity: its Name and the value its kind carries. */
  datatype Quantity = Quantity(name: string, kind: QuantityKind, value: real)

  /** The RelatingPropertyDefinition of an IfcRelDefinesByProperties. */
  datatype PropertyDefinition = PropertySet(properties: seq<Property>) | QuantitySet(quantities: seq<Quantity>) | OtherDefinition

  /** An entry of IsDefinedBy: a relation by properties, or one that has no
    * RelatingPropertyDefinition attribute. */
  datatype Definition = DefinesByProperties(relatingPropertyDefinition: PropertyDefinition) | DefinesByType

  datatype Space = Space(
    id: EntityId,
    globalId: string,
    name: Option<string>,
    longName: Option<string>,
    decomposes: seq<Decomposition>,
    isDefinedBy: seq<Definition>)

  /** An IfcRelSpaceBoundary: RelatingSpace and RelatedBuildingElement are
    * both optional in the files the scripts read. */
  datatype SpaceBoundary = SpaceBoundary(relatingSpace: Option<Space>, relatedBuildingElement: Option<Element>)

  /** IfcRelFillsElement: the opening a door or window fills. */
  datatype Fills = Fills(relatingOpeningElement: EntityId, relatedBuildingElement: EntityId)

  /** IfcRelVoidsElement: the element an opening cuts. */
  datatype Voids = Voids(relatingBuildingElement: Element, relatedOpeningElement: EntityId)
}
