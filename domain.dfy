/** Value objects, commands, events and the node-type schema of the content
    repository's node context, as the command handler sees them. */
module Domain {

  /** Identifiers and names are pre-validated text. */
  type NodeIdentifier = string
  type EditingSessionIdentifier = string
  type NodeName = string
  type NodeTypeName = string
  type PropertyName = string
  /** A declared property type, such as "string" or "boolean". */
  type PropertyType = string
  type StreamName = string

  /** The variant coordinate of a node: dimension name to dimension value. */
  type DimensionValues = map<string, string>

  /** A raw (untyped) default value as the schema declares it. */
  datatype RawValue =
    | NullValue
    | BooleanValue(b: bool)
    | IntegerValue(i: int)
    | StringValue(s: string)

  /** A property value together with the type its node type declares for it. */
  datatype PropertyValue = PropertyValue(value: RawValue, declaredType: PropertyType)

  /** What the node type manager knows about one node type: the default value
      of each property, the declared type of any property, and the
      auto-created child nodes (slot name, child type) in enumeration order. */
  datatype NodeType = NodeType(
    defaultValuesForProperties: map<PropertyName, RawValue>,
    propertyType: PropertyName -> PropertyType,
    autoCreatedChildNodes: seq<(NodeName, NodeTypeName)>)

  /** The node type manager: the node types it has, by name. */
  type NodeTypeManager = map<NodeTypeName, NodeType>

  /** Request to create one node (of a given type, under a given parent,
      with given dimension values) inside an editing session. */
  datatype CreateChildNodeWithVariant = CreateChildNodeWithVariant(
    editingSessionIdentifier: EditingSessionIdentifier,
    parentNodeIdentifier: NodeIdentifier,
    nodeIdentifier: NodeIdentifier,
    nodeName: NodeName,
    nodeTypeName: NodeTypeName,
    dimensionValues: DimensionValues)

  /** Request to set a property; only the editing session it addresses is
      modelled, because the handler does not act on it. */
  datatype SetProperty = SetProperty(editingSessionIdentifier: EditingSessionIdentifier)

  /** The fact that one node was created. */
  datatype ChildNodeWithVariantWasCreated = ChildNodeWithVariantWasCreated(
    parentNodeIdentifier: NodeIdentifier,
    nodeIdentifier: NodeIdentifier,
    nodeName: NodeName,
    nodeTypeName: NodeTypeName,
    dimensionValues: DimensionValues,
    propertyDefaultValuesAndTypes: map<PropertyName, PropertyValue>)

  /** The exception raised for a node type the manager does not know. */
  datatype NodeTypeNotFound = NodeTypeNotFound(nodeTypeName: NodeTypeName) {
    const code: int := 1505838774
  }

  datatype Result<+T, +E> = Success(value: T) | Failure(error: E) {
    predicate IsFailure() {
      Failure?
    }

    function PropagateFailure<U>(): Result<U, E>
      requires Failure?
    {
      Failure(error)
    }

    function Extract(): T
      requires Success?
    {
      value
    }
  }

  /** Completion of a command: it passed, or it raised an error. */
  datatype Outcome<+E> = Pass | Fail(error: E)
}
