/** Concrete schemas, and a generic chain of slots, with what expanding a
    command over them yields or why no termination witness admits it. */
module Scenarios {
  import opened Domain
  import opened Expansion

  function StringTyped(p: PropertyName): PropertyType {
    "string"
  }

  /** A page type with one default property and no auto-created children. */
  ghost function PageSchema(): NodeTypeManager {
    map["Page" := NodeType(map["title" := StringValue("Untitled")], StringTyped, [])]
  }

  function FlatRank(t: NodeTypeName): nat {
    1
  }

  /** A page auto-creates a collection "main", which auto-creates a text "item". */
  ghost function NestedSchema(): NodeTypeManager {
    map[
      "Page" := NodeType(map[], StringTyped, [("main", "ContentCollection")]),
      "ContentCollection" := NodeType(map[], StringTyped, [("item", "Text")]),
      "Text" := NodeType(map[], StringTyped, [])]
  }

  function NestedRank(t: NodeTypeName): nat {
    if t == "Page" then 3 else if t == "ContentCollection" then 2 else 1
  }

  lemma {:induction false} PageYieldsOneEvent(deriveId: IdDerivation, command: CreateChildNodeWithVariant)
    requires command.nodeTypeName == "Page"
    ensures Ranked(PageSchema(), FlatRank)
    ensures var r := Expand(PageSchema(), deriveId, FlatRank, command);
            && r.Success?
            && |r.value| == 1
            && r.value[0].propertyDefaultValuesAndTypes == map["title" := PropertyValue(StringValue("Untitled"), "string")]
  {
  }

  /** A page next to a type that auto-creates a child of its own type: the
      cycle is not reachable from the page. */
  ghost function DetachedCycleSchema(): NodeTypeManager {
    map[
      "Page" := NodeType(map[], StringTyped, []),
      "Loop" := NodeType(map[], StringTyped, [("x", "Loop")])]
  }

  function PageOnlyRank(t: NodeTypeName): nat {
    if t == "Page" then 1 else 0
  }

  /** A cycle elsewhere in the schema does not keep a page from expanding:
      one event, for the page itself. */
  lemma {:induction false} DetachedCycleLeavesPageExpandable(deriveId: IdDerivation, command: CreateChildNodeWithVariant)
    requires command.nodeTypeName == "Page"
    ensures Ranked(DetachedCycleSchema(), PageOnlyRank) && 0 < PageOnlyRank(command.nodeTypeName)
    ensures var r := Expand(DetachedCycleSchema(), deriveId, PageOnlyRank, command);
            && r.Success?
            && |r.value| == 1
            && r.value[0].nodeTypeName == "Page"
  {
  }

  /** A page whose first slot has an unknown type and whose second slot
      leads into a self-referencing type. */
  ghost function UnknownBeforeCycleSchema(): NodeTypeManager {
    map[
      "Page" := NodeType(map[], StringTyped, [("u", "Unknown"), ("x", "Loop")]),
      "Loop" := NodeType(map[], StringTyped, [("x", "Loop")])]
  }

  /** No witness admits a page command here, although a depth-first walk
      stops at the unknown type before it reaches the cycle. */
  lemma {:induction false} UnknownBeforeCycleHasNoWitness(rank: NodeTypeName -> nat)
    ensures !(Ranked(UnknownBeforeCycleSchema(), rank) && 0 < rank("Page"))
  {
    var m := UnknownBeforeCycleSchema();
    assert m["Page"].autoCreatedChildNodes[1].1 == "Loop";
    assert m["Loop"].autoCreatedChildNodes[0].1 == "Loop";
    if Ranked(m, rank) && 0 < rank("Page") {
      assert false;
    }
  }

  /** Two types that auto-create each other, the second with an unknown
      type in its first slot. */
  ghost function UnknownInsideCycleSchema(): NodeTypeManager {
    map[
      "A" := NodeType(map[], StringTyped, [("x", "B")]),
      "B" := NodeType(map[], StringTyped, [("u", "Unknown"), ("y", "A")])]
  }

  /** No witness admits a command of type A here, although a depth-first
      walk stops at the unknown type before it returns to A. */
  lemma {:induction false} UnknownInsideCycleHasNoWitness(rank: NodeTypeName -> nat)
    ensures !(Ranked(UnknownInsideCycleSchema(), rank) && 0 < rank("A"))
  {
    var m := UnknownInsideCycleSchema();
    assert m["A"].autoCreatedChildNodes[0].1 == "B";
    assert m["B"].autoCreatedChildNodes[1].1 == "A";
    if Ranked(m, rank) && 0 < rank("A") {
      assert false;
    }
  }

  /** Any schema in which the requested type auto-creates one child slot,
      whose type auto-creates one more, which auto-creates nothing: three
      events, the requested node first, then its child, then the grandchild,
      each with the identifier derived from its parent. */
  lemma {:induction false} ChainYieldsThreeEventsInPreOrder(m: NodeTypeManager, rank: NodeTypeName -> nat,
                                                           deriveId: IdDerivation, command: CreateChildNodeWithVariant,
                                                           child: (NodeName, NodeTypeName), grandchild: (NodeName, NodeTypeName))
    requires Ranked(m, rank) && 0 < rank(command.nodeTypeName)
    requires command.nodeTypeName in m && m[command.nodeTypeName].autoCreatedChildNodes == [child]
    requires child.1 in m && m[child.1].autoCreatedChildNodes == [grandchild]
    requires grandchild.1 in m && m[grandchild.1].autoCreatedChildNodes == []
    ensures var r := Expand(m, deriveId, rank, command);
            && r.Success?
            && |r.value| == 3
            && r.value[0].nodeIdentifier == command.nodeIdentifier
            && r.value[0].nodeTypeName == command.nodeTypeName
            && r.value[1].nodeTypeName == child.1
            && r.value[1].nodeName == child.0
            && r.value[1].parentNodeIdentifier == command.nodeIdentifier
            && r.value[1].nodeIdentifier == deriveId(child.0, command.nodeIdentifier)
            && r.value[2].nodeTypeName == grandchild.1
            && r.value[2].nodeName == grandchild.0
            && r.value[2].parentNodeIdentifier == r.value[1].nodeIdentifier
            && r.value[2].nodeIdentifier == deriveId(grandchild.0, deriveId(child.0, command.nodeIdentifier))
  {
    assert m[command.nodeTypeName].autoCreatedChildNodes[0] == child;
    assert m[child.1].autoCreatedChildNodes[0] == grandchild;
    var middle := ChildCommand(deriveId, command, child);
    var last := ChildCommand(deriveId, middle, grandchild);
    var lastEvents := Expand(m, deriveId, rank, last);
    assert ExpandSlots(m, deriveId, rank, last, []) == Success([]);
    assert lastEvents.Success? && |lastEvents.value| == 1;
    var middleEvents := Expand(m, deriveId, rank, middle);
    var middleSlots := m[child.1].autoCreatedChildNodes;
    assert middleSlots[..0] == [] && middleSlots[0] == grandchild;
    assert ExpandSlots(m, deriveId, rank, middle, middleSlots[..0]) == Success([]);
    assert ExpandSlots(m, deriveId, rank, middle, middleSlots).value == [] + lastEvents.value;
    assert middleEvents.Success? && |middleEvents.value| == 2 && middleEvents.value[1] == lastEvents.value[0];
    var topSlots := m[command.nodeTypeName].autoCreatedChildNodes;
    assert topSlots[..0] == [] && topSlots[0] == child;
    assert ExpandSlots(m, deriveId, rank, command, topSlots[..0]) == Success([]);
    assert ExpandSlots(m, deriveId, rank, command, topSlots).value == [] + middleEvents.value;
  }

  /** The chain above, for a page whose "main" collection holds a text "item". */
  lemma {:induction false} NestedYieldsThreeEventsInPreOrder(deriveId: IdDerivation, command: CreateChildNodeWithVariant)
    requires command.nodeTypeName == "Page"
    ensures Ranked(NestedSchema(), NestedRank)
    ensures var r := Expand(NestedSchema(), deriveId, NestedRank, command);
            && r.Success?
            && |r.value| == 3
            && r.value[0].nodeTypeName == "Page"
            && r.value[1].nodeTypeName == "ContentCollection"
            && r.value[1].nodeName == "main"
            && r.value[1].parentNodeIdentifier == command.nodeIdentifier
            && r.value[1].nodeIdentifier == deriveId("main", command.nodeIdentifier)
            && r.value[2].nodeTypeName == "Text"
            && r.value[2].nodeName == "item"
            && r.value[2].parentNodeIdentifier == r.value[1].nodeIdentifier
            && r.value[2].nodeIdentifier == deriveId("item", deriveId("main", command.nodeIdentifier))
  {
    var m := NestedSchema();
    assert Ranked(m, NestedRank);
    ChainYieldsThreeEventsInPreOrder(m, NestedRank, deriveId, command, ("main", "ContentCollection"), ("item", "Text"));
  }
}
