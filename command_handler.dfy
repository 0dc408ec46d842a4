/** The node command handler: turns a creation command into its events and
    publishes them, in one call, to the stream of the command's editing
    session. */
module CommandHandling {
  import opened Domain
  import opened Expansion

  /** The events of all calls in `calls` that went to `stream`, in call order. */
  function StreamEvents(calls: seq<(StreamName, Events)>, stream: StreamName): Events {
    if calls == [] then []
    else
      StreamEvents(calls[..|calls| - 1], stream) +
      (if calls[|calls| - 1].0 == stream then calls[|calls| - 1].1 else [])
  }

  /** The event publisher, seen only as the log of its publish calls. */
  class EventPublisher {
    var calls: seq<(StreamName, Events)>

    constructor ()
      ensures calls == []
    {
      calls := [];
    }

    /** The events that were appended to `stream`, oldest first. */
    function EventsInStream(stream: StreamName): Events
      reads this
    {
      StreamEvents(calls, stream)
    }

    /** Appends all of `events`, in order, to `stream` in one call. */
    method PublishMany(stream: StreamName, events: Events)
      modifies this
      ensures calls == old(calls) + [(stream, events)]
      ensures EventsInStream(stream) == old(EventsInStream(stream)) + events
      ensures forall other :: other != stream ==> EventsInStream(other) == old(EventsInStream(other))
    {
      calls := calls + [(stream, events)];
      assert calls[..|calls| - 1] == old(calls);
    }
  }

  const EditingSessionStreamPrefix: string := "editingsession:"

  class NodeCommandHandler {
    const eventPublisher: EventPublisher
    const nodeTypeManager: NodeTypeManager
    /** How the identifier of an auto-created child node is derived. */
    const deriveId: IdDerivation
    /** Termination witness: no cycle of auto-created children is reachable
        from a node type of positive rank. */
    ghost const rank: NodeTypeName -> nat

    ghost predicate Valid() {
      Ranked(nodeTypeManager, rank)
    }

    constructor (eventPublisher: EventPublisher, nodeTypeManager: NodeTypeManager,
                 deriveId: IdDerivation, ghost rank: NodeTypeName -> nat)
      requires Ranked(nodeTypeManager, rank)
      ensures Valid()
      ensures this.eventPublisher == eventPublisher && this.nodeTypeManager == nodeTypeManager
      ensures this.deriveId == deriveId && this.rank == rank
    {
      this.eventPublisher := eventPublisher;
      this.nodeTypeManager := nodeTypeManager;
      this.deriveId := deriveId;
      this.rank := rank;
    }

    /** The stream of an editing session: the fixed prefix, then the
        session identifier. */
    static function StreamNameForEditingSession(editingSessionIdentifier: EditingSessionIdentifier): (name: StreamName)
      ensures |name| == |EditingSessionStreamPrefix| + |editingSessionIdentifier|
      ensures name[..|EditingSessionStreamPrefix|] == EditingSessionStreamPrefix
      ensures name[|EditingSessionStreamPrefix|..] == editingSessionIdentifier
    {
      EditingSessionStreamPrefix + editingSessionIdentifier
    }

    /** Different editing sessions write to different streams. */
    static lemma {:induction false} StreamNamesDistinct(a: EditingSessionIdentifier, b: EditingSessionIdentifier)
      ensures StreamNameForEditingSession(a) == StreamNameForEditingSession(b) <==> a == b
    {
    }

    /** Expands the command and, if that succeeds, publishes the whole event
        list with one call to the session's stream; on an unknown node type
        it raises and publishes nothing. */
    method HandleCreateChildNodeWithVariant(command: CreateChildNodeWithVariant) returns (outcome: Outcome<NodeTypeNotFound>)
      requires Valid() && 0 < rank(command.nodeTypeName)
      modifies eventPublisher
      ensures var expansion := Expand(nodeTypeManager, deriveId, rank, command);
              if expansion.Success? then
                && outcome == Pass
                && eventPublisher.calls ==
                   old(eventPublisher.calls) + [(StreamNameForEditingSession(command.editingSessionIdentifier), expansion.value)]
                && eventPublisher.EventsInStream(StreamNameForEditingSession(command.editingSessionIdentifier)) ==
                   old(eventPublisher.EventsInStream(StreamNameForEditingSession(command.editingSessionIdentifier))) + expansion.value
              else
                && outcome == Fail(expansion.error)
                && eventPublisher.calls == old(eventPublisher.calls)
    {
      var events := ChildNodeWithVariantWasCreatedFromCommand(command);
      if events.Failure? {
        return Fail(events.error);
      }
      eventPublisher.PublishMany(StreamNameForEditingSession(command.editingSessionIdentifier), events.value);
      outcome := Pass;
    }

    /** Pairs every default value of the node type with the declared type of
        its property. */
    static method BuildPropertyDefaultValuesAndTypes(nodeType: NodeType) returns (props: map<PropertyName, PropertyValue>)
      ensures props.Keys == nodeType.defaultValuesForProperties.Keys
      ensures forall p :: p in props ==>
                props[p] == PropertyValue(nodeType.defaultValuesForProperties[p], nodeType.propertyType(p))
      ensures props == PropertyDefaultValuesAndTypes(nodeType)
    {
      props := map[];
      var remaining := nodeType.defaultValuesForProperties.Keys;
      while remaining != {}
        invariant remaining <= nodeType.defaultValuesForProperties.Keys
        invariant props.Keys == nodeType.defaultValuesForProperties.Keys - remaining
        invariant forall p :: p in props ==>
                    props[p] == PropertyValue(nodeType.defaultValuesForProperties[p], nodeType.propertyType(p))
        decreases remaining
      {
        var propertyName :| propertyName in remaining;
        props := props[propertyName := PropertyValue(nodeType.defaultValuesForProperties[propertyName],
                                                     nodeType.propertyType(propertyName))];
        remaining := remaining - {propertyName};
      }
    }

    /** The events for adding a node, including all auto-created child nodes
        (recursively), built by appending to a local list. */
    method ChildNodeWithVariantWasCreatedFromCommand(command: CreateChildNodeWithVariant)
      returns (r: Result<Events, NodeTypeNotFound>)
      requires Valid() && 0 < rank(command.nodeTypeName)
      ensures r == Expand(nodeTypeManager, deriveId, rank, command)
      decreases rank(command.nodeTypeName)
    {
      var nodeTypeName := command.nodeTypeName;
      if nodeTypeName !in nodeTypeManager {
        return Failure(NodeTypeNotFound(nodeTypeName));
      }
      var nodeType := nodeTypeManager[nodeTypeName];
      var propertyDefaultValuesAndTypes := BuildPropertyDefaultValuesAndTypes(nodeType);
      var events := [ChildNodeWithVariantWasCreated(
        command.parentNodeIdentifier,
        command.nodeIdentifier,
        command.nodeName,
        command.nodeTypeName,
        command.dimensionValues,
        propertyDefaultValuesAndTypes)];
      var slots := nodeType.autoCreatedChildNodes;
      ExpandKnownType(nodeTypeManager, deriveId, rank, command);
      ghost var own := Success([CreatedEvent(command, nodeType)]);
      assert slots[..0] == [] && events == own.value;
      ThenSucceedsWithNothing(own);
      var i := 0;
      while i < |slots|
        invariant 0 <= i <= |slots|
        invariant RankedBelow(rank, nodeTypeName, slots[..i])
        invariant Then(own, ExpandSlots(nodeTypeManager, deriveId, rank, command, slots[..i])) == Success(events)
      {
        var (childNodeName, childNodeTypeName) := slots[i];
        var childNodeIdentifier := deriveId(childNodeName, command.nodeIdentifier);
        var childCommand := CreateChildNodeWithVariant(
          command.editingSessionIdentifier,
          command.nodeIdentifier,
          childNodeIdentifier,
          childNodeName,
          childNodeTypeName,
          command.dimensionValues);
        assert childCommand == ChildCommand(deriveId, command, slots[i]);
        SlotsStep(nodeTypeManager, deriveId, rank, command, slots, i);
        var childEvents := ChildNodeWithVariantWasCreatedFromCommand(childCommand);
        ThenAssociative(own, ExpandSlots(nodeTypeManager, deriveId, rank, command, slots[..i]), childEvents);
        if childEvents.Failure? {
          PrefixFailureIsFinal(nodeTypeManager, deriveId, rank, command, slots, i + 1);
          return Failure(childEvents.error);
        }
        events := events + childEvents.value;
        i := i + 1;
      }
      assert slots[..i] == slots;
      return Success(events);
    }

    /** Accepted, but not acted upon: publishes nothing and raises nothing. */
    method HandleSetProperty(command: SetProperty)
      ensures unchanged(eventPublisher)
    {
    }
  }
}
