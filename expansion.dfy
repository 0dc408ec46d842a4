/** The expansion of one creation command into the ordered list of creation
    events: one for the requested node, then, depth-first in pre-order, one
    for every node the auto-created-children declarations of its type
    require, recursively. */
module Expansion {
  import opened Domain

  type Events = seq<ChildNodeWithVariantWasCreated>

  /** The identifier of an auto-created child node, derived from its node
      name and its parent's identifier. Left uninterpreted: any function. */
  type IdDerivation = (NodeName, NodeIdentifier) -> NodeIdentifier

  /** Termination witness: from every known node type of positive rank,
      `rank` strictly decreases to each of its auto-created child types and
      stays positive. Types of rank 0 are outside the witness. An expansion
      is defined for a command whose type has positive rank; such a rank
      exists exactly when no cycle of auto-created children is reachable
      from that type, whatever the rest of the schema holds. */
  ghost predicate Ranked(m: NodeTypeManager, rank: NodeTypeName -> nat) {
    forall t, i :: t in m && 0 < rank(t) && 0 <= i < |m[t].autoCreatedChildNodes| ==>
      0 < rank(m[t].autoCreatedChildNodes[i].1) < rank(t)
  }

  /** Every slot type in `slots` ranks below `t`, within the witness. */
  ghost predicate RankedBelow(rank: NodeTypeName -> nat, t: NodeTypeName, slots: seq<(NodeName, NodeTypeName)>) {
    forall i :: 0 <= i < |slots| ==> 0 < rank(slots[i].1) < rank(t)
  }

  /** The default value of property `p`, paired with its declared type. */
  function DefaultPropertyValue(nodeType: NodeType, p: PropertyName): PropertyValue
    requires p in nodeType.defaultValuesForProperties
  {
    PropertyValue(nodeType.defaultValuesForProperties[p], nodeType.propertyType(p))
  }

  /** Each default value of the node type, paired with the declared type of
      that same property. */
  function PropertyDefaultValuesAndTypes(nodeType: NodeType): map<PropertyName, PropertyValue> {
    map p | p in nodeType.defaultValuesForProperties :: DefaultPropertyValue(nodeType, p)
  }

  /** The event for the node a command requests. */
  function CreatedEvent(command: CreateChildNodeWithVariant, nodeType: NodeType): ChildNodeWithVariantWasCreated {
    ChildNodeWithVariantWasCreated(
      command.parentNodeIdentifier,
      command.nodeIdentifier,
      command.nodeName,
      command.nodeTypeName,
      command.dimensionValues,
      PropertyDefaultValuesAndTypes(nodeType))
  }

  /** The synthetic command for one auto-created child slot of the node that
      `command` creates. */
  function ChildCommand(deriveId: IdDerivation, command: CreateChildNodeWithVariant,
                        slot: (NodeName, NodeTypeName)): CreateChildNodeWithVariant
  {
    CreateChildNodeWithVariant(
      command.editingSessionIdentifier,
      command.nodeIdentifier,
      deriveId(slot.0, command.nodeIdentifier),
      slot.0,
      slot.1,
      command.dimensionValues)
  }

  /** The events for `command` and all its auto-created descendants, or the
      first unknown node type met on the way. */
  function Expand(m: NodeTypeManager, deriveId: IdDerivation, ghost rank: NodeTypeName -> nat,
                  command: CreateChildNodeWithVariant): (r: Result<Events, NodeTypeNotFound>)
    requires Ranked(m, rank) && 0 < rank(command.nodeTypeName)
    ensures command.nodeTypeName !in m ==> r == Failure(NodeTypeNotFound(command.nodeTypeName))
    ensures r.Failure? ==> r.error.nodeTypeName !in m
    ensures r.Success? ==>
      && command.nodeTypeName in m
      && |r.value| >= 1
      && r.value[0].parentNodeIdentifier == command.parentNodeIdentifier
      && r.value[0].nodeIdentifier == command.nodeIdentifier
      && r.value[0].nodeName == command.nodeName
      && r.value[0].nodeTypeName == command.nodeTypeName
      && r.value[0].dimensionValues == command.dimensionValues
    decreases rank(command.nodeTypeName), 1, 0
  {
    if command.nodeTypeName !in m then
      Failure(NodeTypeNotFound(command.nodeTypeName))
    else
      var nodeType := m[command.nodeTypeName];
      var descendants :- ExpandSlots(m, deriveId, rank, command, nodeType.autoCreatedChildNodes);
      Success([CreatedEvent(command, nodeType)] + descendants)
  }

  /** The events of the subtrees of `slots`, children of the node `command`
      creates, one subtree after the other in slot order. A failure in an
      earlier slot is the one reported. */
  function ExpandSlots(m: NodeTypeManager, deriveId: IdDerivation, ghost rank: NodeTypeName -> nat,
                       command: CreateChildNodeWithVariant,
                       slots: seq<(NodeName, NodeTypeName)>): (r: Result<Events, NodeTypeNotFound>)
    requires Ranked(m, rank)
    requires RankedBelow(rank, command.nodeTypeName, slots)
    ensures r.Failure? ==> r.error.nodeTypeName !in m
    decreases rank(command.nodeTypeName), 0, |slots|
  {
    if slots == [] then
      Success([])
    else
      var earlier :- ExpandSlots(m, deriveId, rank, command, slots[..|slots| - 1]);
      var last :- Expand(m, deriveId, rank, ChildCommand(deriveId, command, slots[|slots| - 1]));
      Success(earlier + last)
  }

  /** Runs `first`, then `second`: the first failure wins, otherwise the
      event lists are concatenated. */
  function Then(first: Result<Events, NodeTypeNotFound>, second: Result<Events, NodeTypeNotFound>): Result<Events, NodeTypeNotFound> {
    if first.Failure? then first
    else if second.Failure? then second
    else Success(first.value + second.value)
  }

  // ---------------------------------------------------------------------
  // Reference definitions over the schema alone
  // ---------------------------------------------------------------------

  /** Node type `t` and, transitively, every auto-created child type are known. */
  ghost predicate Resolvable(m: NodeTypeManager, rank: NodeTypeName -> nat, t: NodeTypeName)
    requires Ranked(m, rank) && 0 < rank(t)
    decreases rank(t)
  {
    t in m &&
    forall i :: 0 <= i < |m[t].autoCreatedChildNodes| ==>
      Resolvable(m, rank, m[t].autoCreatedChildNodes[i].1)
  }

  /** Number of nodes in the auto-created tree of a node of type `t`. */
  ghost function NodeCount(m: NodeTypeManager, rank: NodeTypeName -> nat, t: NodeTypeName): nat
    requires Ranked(m, rank) && 0 < rank(t)
    decreases rank(t), 1, 0
  {
    if t !in m then 1 else 1 + SlotsNodeCount(m, rank, t, m[t].autoCreatedChildNodes)
  }

  ghost function SlotsNodeCount(m: NodeTypeManager, rank: NodeTypeName -> nat, t: NodeTypeName,
                                slots: seq<(NodeName, NodeTypeName)>): nat
    requires Ranked(m, rank)
    requires RankedBelow(rank, t, slots)
    decreases rank(t), 0, |slots|
  {
    if slots == [] then 0
    else SlotsNodeCount(m, rank, t, slots[..|slots| - 1]) + NodeCount(m, rank, slots[|slots| - 1].1)
  }

  /** The event's properties are exactly its own node type's defaults, each
      paired with that type's declared type for the property. */
  ghost predicate CarriesOwnDefaults(m: NodeTypeManager, e: ChildNodeWithVariantWasCreated) {
    && e.nodeTypeName in m
    && e.propertyDefaultValuesAndTypes.Keys == m[e.nodeTypeName].defaultValuesForProperties.Keys
    && forall p :: p in e.propertyDefaultValuesAndTypes ==>
         e.propertyDefaultValuesAndTypes[p] ==
           PropertyValue(m[e.nodeTypeName].defaultValuesForProperties[p], m[e.nodeTypeName].propertyType(p))
  }

  /** The event's node identifier is derived from its name and its parent. */
  ghost predicate DerivedIdentity(deriveId: IdDerivation, e: ChildNodeWithVariantWasCreated) {
    e.nodeIdentifier == deriveId(e.nodeName, e.parentNodeIdentifier)
  }

  /** Some event before position `k` is the parent of event `k`, and event
      `k` fills an auto-created slot of that parent's type. */
  ghost predicate LinkedAt(m: NodeTypeManager, es: Events, k: int)
    requires 0 <= k < |es|
  {
    exists j :: 0 <= j < k
      && es[j].nodeTypeName in m
      && es[j].nodeIdentifier == es[k].parentNodeIdentifier
      && (es[k].nodeName, es[k].nodeTypeName) in m[es[j].nodeTypeName].autoCreatedChildNodes
  }

  // ---------------------------------------------------------------------
  // Success and failure
  // ---------------------------------------------------------------------

  /** Expansion succeeds exactly when every node type it reaches is known. */
  lemma {:induction false} ExpandSucceedsIff(m: NodeTypeManager, deriveId: IdDerivation, rank: NodeTypeName -> nat,
                                             command: CreateChildNodeWithVariant)
    requires Ranked(m, rank) && 0 < rank(command.nodeTypeName)
    ensures Expand(m, deriveId, rank, command).Success? <==> Resolvable(m, rank, command.nodeTypeName)
    decreases rank(command.nodeTypeName), 1, 0
  {
    if command.nodeTypeName in m {
      SlotsSucceedIff(m, deriveId, rank, command, m[command.nodeTypeName].autoCreatedChildNodes);
    }
  }

  lemma {:induction false} SlotsSucceedIff(m: NodeTypeManager, deriveId: IdDerivation, rank: NodeTypeName -> nat,
                                           command: CreateChildNodeWithVariant, slots: seq<(NodeName, NodeTypeName)>)
    requires Ranked(m, rank)
    requires RankedBelow(rank, command.nodeTypeName, slots)
    ensures ExpandSlots(m, deriveId, rank, command, slots).Success? <==>
            forall i :: 0 <= i < |slots| ==> Resolvable(m, rank, slots[i].1)
    decreases rank(command.nodeTypeName), 0, |slots|
  {
    if slots != [] {
      var n := |slots| - 1;
      SlotsSucceedIff(m, deriveId, rank, command, slots[..n]);
      ExpandSucceedsIff(m, deriveId, rank, ChildCommand(deriveId, command, slots[n]));
      assert forall i :: 0 <= i < n ==> slots[..n][i] == slots[i];
    }
  }

  // ---------------------------------------------------------------------
  // Order: siblings one complete subtree after the other
  // ---------------------------------------------------------------------

  /** Expanding a slot list split in two is expanding the first part, then
      the second: the second part's events follow all of the first part's,
      and a failure in the first part hides any in the second. */
  lemma {:induction false} SiblingsInOrder(m: NodeTypeManager, deriveId: IdDerivation, rank: NodeTypeName -> nat,
                                           command: CreateChildNodeWithVariant,
                                           first: seq<(NodeName, NodeTypeName)>, second: seq<(NodeName, NodeTypeName)>)
    requires Ranked(m, rank)
    requires RankedBelow(rank, command.nodeTypeName, first + second)
    ensures RankedBelow(rank, command.nodeTypeName, first) && RankedBelow(rank, command.nodeTypeName, second)
    ensures ExpandSlots(m, deriveId, rank, command, first + second) ==
            Then(ExpandSlots(m, deriveId, rank, command, first), ExpandSlots(m, deriveId, rank, command, second))
    decreases |second|
  {
    var all := first + second;
    assert first == all[..|first|] && second == all[|first|..];
    RankedBelowSlice(rank, command.nodeTypeName, all, 0, |first|);
    RankedBelowSlice(rank, command.nodeTypeName, all, |first|, |all|);
    var front := ExpandSlots(m, deriveId, rank, command, first);
    if second == [] {
      assert all == first;
      ThenSucceedsWithNothing(front);
    } else {
      var n := |second| - 1;
      assert all[..|all| - 1] == first + second[..n] && all[|all| - 1] == second[n];
      RankedBelowSlice(rank, command.nodeTypeName, second, 0, n);
      SiblingsInOrder(m, deriveId, rank, command, first, second[..n]);
      SlotsLastSubtree(m, deriveId, rank, command, all);
      SlotsLastSubtree(m, deriveId, rank, command, second);
      ThenAssociative(front, ExpandSlots(m, deriveId, rank, command, second[..n]),
                      Expand(m, deriveId, rank, ChildCommand(deriveId, command, second[n])));
    }
  }

  /** Expanding a command of a known type is its own event, then the
      subtrees of its type's slots. */
  lemma {:induction false} ExpandKnownType(m: NodeTypeManager, deriveId: IdDerivation, rank: NodeTypeName -> nat,
                        command: CreateChildNodeWithVariant)
    requires Ranked(m, rank) && 0 < rank(command.nodeTypeName)
    requires command.nodeTypeName in m
    ensures RankedBelow(rank, command.nodeTypeName, m[command.nodeTypeName].autoCreatedChildNodes)
    ensures Expand(m, deriveId, rank, command) ==
            Then(Success([CreatedEvent(command, m[command.nodeTypeName])]),
                 ExpandSlots(m, deriveId, rank, command, m[command.nodeTypeName].autoCreatedChildNodes))
  {
  }

  /** One more slot: the expansion of the first `i + 1` slots is that of
      the first `i`, then slot `i`'s subtree. */
  lemma {:induction false} SlotsStep(m: NodeTypeManager, deriveId: IdDerivation, rank: NodeTypeName -> nat,
                  command: CreateChildNodeWithVariant, slots: seq<(NodeName, NodeTypeName)>, i: nat)
    requires Ranked(m, rank)
    requires RankedBelow(rank, command.nodeTypeName, slots)
    requires i < |slots|
    ensures RankedBelow(rank, command.nodeTypeName, slots[..i])
    ensures RankedBelow(rank, command.nodeTypeName, slots[..i + 1])
    ensures rank(slots[i].1) < rank(command.nodeTypeName)
    ensures ExpandSlots(m, deriveId, rank, command, slots[..i + 1]) ==
            Then(ExpandSlots(m, deriveId, rank, command, slots[..i]),
                 Expand(m, deriveId, rank, ChildCommand(deriveId, command, slots[i])))
  {
    RankedBelowSlice(rank, command.nodeTypeName, slots, 0, i);
    RankedBelowSlice(rank, command.nodeTypeName, slots, 0, i + 1);
    assert slots[..i + 1][..i] == slots[..i] && slots[..i + 1][i] == slots[i];
    SlotsLastSubtree(m, deriveId, rank, command, slots[..i + 1]);
  }

  /** Once a prefix of the slots fails, the whole list fails with the same
      error: no later slot is looked at. */
  lemma {:induction false} PrefixFailureIsFinal(m: NodeTypeManager, deriveId: IdDerivation, rank: NodeTypeName -> nat,
                             command: CreateChildNodeWithVariant, slots: seq<(NodeName, NodeTypeName)>, j: nat)
    requires Ranked(m, rank)
    requires RankedBelow(rank, command.nodeTypeName, slots)
    requires j <= |slots|
    ensures RankedBelow(rank, command.nodeTypeName, slots[..j])
    ensures ExpandSlots(m, deriveId, rank, command, slots[..j]).Failure? ==>
            ExpandSlots(m, deriveId, rank, command, slots) == ExpandSlots(m, deriveId, rank, command, slots[..j])
  {
    assert slots == slots[..j] + slots[j..];
    SiblingsInOrder(m, deriveId, rank, command, slots[..j], slots[j..]);
  }

  /** A slice of a slot list ranked below `t` is ranked below `t`. */
  lemma {:induction false} RankedBelowSlice(rank: NodeTypeName -> nat, t: NodeTypeName, slots: seq<(NodeName, NodeTypeName)>, i: nat, j: nat)
    requires i <= j <= |slots|
    requires RankedBelow(rank, t, slots)
    ensures RankedBelow(rank, t, slots[i..j])
  {
    assert forall k :: 0 <= k < j - i ==> slots[i..j][k] == slots[i + k];
  }

  /** Expanding a non-empty slot list is expanding all but its last slot,
      then the last slot's subtree. */
  lemma {:induction false} SlotsLastSubtree(m: NodeTypeManager, deriveId: IdDerivation, rank: NodeTypeName -> nat,
                         command: CreateChildNodeWithVariant, slots: seq<(NodeName, NodeTypeName)>)
    requires Ranked(m, rank)
    requires RankedBelow(rank, command.nodeTypeName, slots)
    requires slots != []
    ensures RankedBelow(rank, command.nodeTypeName, slots[..|slots| - 1])
    ensures ExpandSlots(m, deriveId, rank, command, slots) ==
            Then(ExpandSlots(m, deriveId, rank, command, slots[..|slots| - 1]),
                 Expand(m, deriveId, rank, ChildCommand(deriveId, command, slots[|slots| - 1])))
  {
    RankedBelowSlice(rank, command.nodeTypeName, slots, 0, |slots| - 1);
  }

  lemma {:induction false} ThenAssociative(a: Result<Events, NodeTypeNotFound>, b: Result<Events, NodeTypeNotFound>,
                        c: Result<Events, NodeTypeNotFound>)
    ensures Then(Then(a, b), c) == Then(a, Then(b, c))
  {
    if a.Success? && b.Success? && c.Success? {
      assert a.value + b.value + c.value == a.value + (b.value + c.value);
    }
  }

  lemma {:induction false} ThenSucceedsWithNothing(a: Result<Events, NodeTypeNotFound>)
    ensures Then(a, Success([])) == a
  {
    if a.Success? {
      assert a.value + [] == a.value;
    }
  }

  /** The subtree of slot `i` sits complete between the subtrees of the
      slots before it and those after it. */
  lemma {:induction false} ChildSubtreeInPlace(m: NodeTypeManager, deriveId: IdDerivation, rank: NodeTypeName -> nat,
                            command: CreateChildNodeWithVariant, i: nat)
    requires Ranked(m, rank) && 0 < rank(command.nodeTypeName)
    requires command.nodeTypeName in m
    requires i < |m[command.nodeTypeName].autoCreatedChildNodes|
    ensures var slots := m[command.nodeTypeName].autoCreatedChildNodes;
            RankedBelow(rank, command.nodeTypeName, slots[..i]) &&
            RankedBelow(rank, command.nodeTypeName, slots[i + 1..]) &&
            ExpandSlots(m, deriveId, rank, command, slots) ==
            Then(Then(ExpandSlots(m, deriveId, rank, command, slots[..i]),
                      Expand(m, deriveId, rank, ChildCommand(deriveId, command, slots[i]))),
                 ExpandSlots(m, deriveId, rank, command, slots[i + 1..]))
  {
    var slots := m[command.nodeTypeName].autoCreatedChildNodes;
    RankedBelowSlice(rank, command.nodeTypeName, slots, 0, |slots|);
    assert slots[0..|slots|] == slots;
    SlotsStep(m, deriveId, rank, command, slots, i);
    assert slots == slots[..i + 1] + slots[i + 1..];
    SiblingsInOrder(m, deriveId, rank, command, slots[..i + 1], slots[i + 1..]);
  }

  // ---------------------------------------------------------------------
  // Properties of every event
  // ---------------------------------------------------------------------

  lemma {:induction false} CreatedEventCarriesOwnDefaults(m: NodeTypeManager, command: CreateChildNodeWithVariant)
    requires command.nodeTypeName in m
    ensures CarriesOwnDefaults(m, CreatedEvent(command, m[command.nodeTypeName]))
  {
    var props := PropertyDefaultValuesAndTypes(m[command.nodeTypeName]);
    assert props.Keys == m[command.nodeTypeName].defaultValuesForProperties.Keys;
  }

  /** Every event has the dimension values `dimensionValues` and carries its
      own type's defaults. */
  ghost predicate AllInherit(m: NodeTypeManager, dimensionValues: DimensionValues, es: Events) {
    forall k :: 0 <= k < |es| ==>
      es[k].dimensionValues == dimensionValues && CarriesOwnDefaults(m, es[k])
  }

  /** Every event's identifier is derived from its node name and parent. */
  ghost predicate AllDerived(deriveId: IdDerivation, es: Events) {
    forall k :: 0 <= k < |es| ==> DerivedIdentity(deriveId, es[k])
  }

  /** Every event inherits the command's dimension values and carries its
      own type's defaults; every event after the first has an identifier
      derived from its node name and parent identifier. */
  lemma {:induction false} ExpandInherits(m: NodeTypeManager, deriveId: IdDerivation, rank: NodeTypeName -> nat,
                                          command: CreateChildNodeWithVariant)
    requires Ranked(m, rank) && 0 < rank(command.nodeTypeName)
    ensures var r := Expand(m, deriveId, rank, command);
            r.Success? ==> AllInherit(m, command.dimensionValues, r.value) && AllDerived(deriveId, r.value[1..])
    decreases rank(command.nodeTypeName), 1, 0
  {
    var r := Expand(m, deriveId, rank, command);
    if r.Success? {
      var nodeType := m[command.nodeTypeName];
      var rest := ExpandSlots(m, deriveId, rank, command, nodeType.autoCreatedChildNodes);
      SlotsInherit(m, deriveId, rank, command, nodeType.autoCreatedChildNodes);
      CreatedEventCarriesOwnDefaults(m, command);
      assert r.value == [CreatedEvent(command, nodeType)] + rest.value;
      assert r.value[1..] == rest.value;
      forall k | 0 < k < |r.value|
        ensures r.value[k].dimensionValues == command.dimensionValues && CarriesOwnDefaults(m, r.value[k])
      {
        assert r.value[k] == rest.value[k - 1];
      }
    }
  }

  lemma {:induction false} SlotsInherit(m: NodeTypeManager, deriveId: IdDerivation, rank: NodeTypeName -> nat,
                                        command: CreateChildNodeWithVariant, slots: seq<(NodeName, NodeTypeName)>)
    requires Ranked(m, rank)
    requires RankedBelow(rank, command.nodeTypeName, slots)
    ensures var r := ExpandSlots(m, deriveId, rank, command, slots);
            r.Success? ==> AllInherit(m, command.dimensionValues, r.value) && AllDerived(deriveId, r.value)
    decreases rank(command.nodeTypeName), 0, |slots|
  {
    var r := ExpandSlots(m, deriveId, rank, command, slots);
    if r.Success? && slots != [] {
      var n := |slots| - 1;
      var child := ChildCommand(deriveId, command, slots[n]);
      var earlier := ExpandSlots(m, deriveId, rank, command, slots[..n]);
      var last := Expand(m, deriveId, rank, child);
      SlotsInherit(m, deriveId, rank, command, slots[..n]);
      ExpandInherits(m, deriveId, rank, child);
      assert r.value == earlier.value + last.value;
      forall k | 0 <= k < |r.value|
        ensures r.value[k].dimensionValues == command.dimensionValues
        ensures CarriesOwnDefaults(m, r.value[k])
        ensures DerivedIdentity(deriveId, r.value[k])
      {
        if k < |earlier.value| {
          assert r.value[k] == earlier.value[k];
        } else if k == |earlier.value| {
          assert r.value[k] == last.value[0];
        } else {
          assert r.value[k] == last.value[1..][k - |earlier.value| - 1];
        }
      }
    }
  }

  // ---------------------------------------------------------------------
  // Tree shape: every non-first event hangs below an earlier one
  // ---------------------------------------------------------------------

  lemma {:induction false} LinkedAtAppend(m: NodeTypeManager, es: Events, more: Events, k: int)
    requires 0 <= k < |es|
    requires LinkedAt(m, es, k)
    ensures LinkedAt(m, es + more, k)
  {
    var j :| 0 <= j < k
      && es[j].nodeTypeName in m
      && es[j].nodeIdentifier == es[k].parentNodeIdentifier
      && (es[k].nodeName, es[k].nodeTypeName) in m[es[j].nodeTypeName].autoCreatedChildNodes;
    assert (es + more)[j] == es[j] && (es + more)[k] == es[k];
  }

  lemma {:induction false} LinkedAtPrepend(m: NodeTypeManager, before: Events, es: Events, k: int)
    requires 0 <= k < |es|
    requires LinkedAt(m, es, k)
    ensures LinkedAt(m, before + es, |before| + k)
  {
    var j :| 0 <= j < k
      && es[j].nodeTypeName in m
      && es[j].nodeIdentifier == es[k].parentNodeIdentifier
      && (es[k].nodeName, es[k].nodeTypeName) in m[es[j].nodeTypeName].autoCreatedChildNodes;
    assert (before + es)[|before| + j] == es[j] && (before + es)[|before| + k] == es[k];
  }

  /** Every event after the first is linked to an earlier parent. */
  ghost predicate AllLinked(m: NodeTypeManager, es: Events) {
    forall k :: 0 < k < |es| ==> LinkedAt(m, es, k)
  }

  /** Two linked lists stay linked when joined, provided the head of the
      second hangs below the head of the first. */
  lemma {:induction false} AllLinkedConcat(m: NodeTypeManager, front: Events, back: Events)
    requires front != [] && back != []
    requires AllLinked(m, front) && AllLinked(m, back)
    requires front[0].nodeTypeName in m
    requires front[0].nodeIdentifier == back[0].parentNodeIdentifier
    requires (back[0].nodeName, back[0].nodeTypeName) in m[front[0].nodeTypeName].autoCreatedChildNodes
    ensures AllLinked(m, front + back)
  {
    var es := front + back;
    forall k | 0 < k < |es|
      ensures LinkedAt(m, es, k)
    {
      if k < |front| {
        assert LinkedAt(m, front, k);
        LinkedAtAppend(m, front, back, k);
      } else if k == |front| {
        assert es[0] == front[0] && es[k] == back[0];
      } else {
        assert LinkedAt(m, back, k - |front|);
        LinkedAtPrepend(m, front, back, k - |front|);
      }
    }
  }

  /** Depth-first pre-order tree shape: every event after the first has its
      parent earlier in the list, and fills an auto-created slot of that
      parent's node type. */
  lemma {:induction false} ExpandLinked(m: NodeTypeManager, deriveId: IdDerivation, rank: NodeTypeName -> nat,
                                        command: CreateChildNodeWithVariant)
    requires Ranked(m, rank) && 0 < rank(command.nodeTypeName)
    ensures var r := Expand(m, deriveId, rank, command);
            r.Success? ==> AllLinked(m, r.value)
    decreases rank(command.nodeTypeName), 1, 0
  {
    var r := Expand(m, deriveId, rank, command);
    if r.Success? {
      var nodeType := m[command.nodeTypeName];
      SlotsLinked(m, deriveId, rank, command, nodeType.autoCreatedChildNodes, CreatedEvent(command, nodeType));
    }
  }

  lemma {:induction false} SlotsLinked(m: NodeTypeManager, deriveId: IdDerivation, rank: NodeTypeName -> nat,
                                       command: CreateChildNodeWithVariant, slots: seq<(NodeName, NodeTypeName)>,
                                       own: ChildNodeWithVariantWasCreated)
    requires Ranked(m, rank) && 0 < rank(command.nodeTypeName)
    requires command.nodeTypeName in m
    requires slots <= m[command.nodeTypeName].autoCreatedChildNodes
    requires own.nodeIdentifier == command.nodeIdentifier && own.nodeTypeName == command.nodeTypeName
    ensures RankedBelow(rank, command.nodeTypeName, slots)
    ensures var r := ExpandSlots(m, deriveId, rank, command, slots);
            r.Success? ==> AllLinked(m, [own] + r.value)
    decreases rank(command.nodeTypeName), 0, |slots|
  {
    var all := m[command.nodeTypeName].autoCreatedChildNodes;
    assert slots == all[..|slots|];
    RankedBelowSlice(rank, command.nodeTypeName, all, 0, |slots|);
    var r := ExpandSlots(m, deriveId, rank, command, slots);
    if r.Success? {
      if slots == [] {
        assert [own] + r.value == [own];
      } else {
        var n := |slots| - 1;
        var child := ChildCommand(deriveId, command, slots[n]);
        SlotsLastSubtree(m, deriveId, rank, command, slots);
        var earlier := ExpandSlots(m, deriveId, rank, command, slots[..n]);
        var last := Expand(m, deriveId, rank, child);
        assert slots[..n] <= all;
        SlotsLinked(m, deriveId, rank, command, slots[..n], own);
        ExpandLinked(m, deriveId, rank, child);
        var front := [own] + earlier.value;
        assert [own] + r.value == front + last.value;
        assert slots[n] == all[n];
        AllLinkedConcat(m, front, last.value);
      }
    }
  }

  // ---------------------------------------------------------------------
  // Size, and independence of everything the events do not depend on
  // ---------------------------------------------------------------------

  /** As many events as the type's auto-created tree has nodes. */
  lemma {:induction false} ExpandLength(m: NodeTypeManager, deriveId: IdDerivation, rank: NodeTypeName -> nat,
                                        command: CreateChildNodeWithVariant)
    requires Ranked(m, rank) && 0 < rank(command.nodeTypeName)
    ensures var r := Expand(m, deriveId, rank, command);
            r.Success? ==> |r.value| == NodeCount(m, rank, command.nodeTypeName)
    decreases rank(command.nodeTypeName), 1, 0
  {
    if command.nodeTypeName in m {
      SlotsLength(m, deriveId, rank, command, m[command.nodeTypeName].autoCreatedChildNodes);
    }
  }

  lemma {:induction false} SlotsLength(m: NodeTypeManager, deriveId: IdDerivation, rank: NodeTypeName -> nat,
                                       command: CreateChildNodeWithVariant, slots: seq<(NodeName, NodeTypeName)>)
    requires Ranked(m, rank)
    requires RankedBelow(rank, command.nodeTypeName, slots)
    ensures var r := ExpandSlots(m, deriveId, rank, command, slots);
            r.Success? ==> |r.value| == SlotsNodeCount(m, rank, command.nodeTypeName, slots)
    decreases rank(command.nodeTypeName), 0, |slots|
  {
    if slots != [] {
      var n := |slots| - 1;
      SlotsLength(m, deriveId, rank, command, slots[..n]);
      ExpandLength(m, deriveId, rank, ChildCommand(deriveId, command, slots[n]));
    }
  }

  /** The termination witness does not influence the result. */
  lemma {:induction false} ExpandRankIndependent(m: NodeTypeManager, deriveId: IdDerivation,
                                                 rank: NodeTypeName -> nat, rank': NodeTypeName -> nat,
                                                 command: CreateChildNodeWithVariant)
    requires Ranked(m, rank) && Ranked(m, rank') && 0 < rank(command.nodeTypeName) && 0 < rank'(command.nodeTypeName)
    ensures Expand(m, deriveId, rank, command) == Expand(m, deriveId, rank', command)
    decreases rank(command.nodeTypeName), 1, 0
  {
    if command.nodeTypeName in m {
      SlotsRankIndependent(m, deriveId, rank, rank', command, m[command.nodeTypeName].autoCreatedChildNodes);
    }
  }

  lemma {:induction false} SlotsRankIndependent(m: NodeTypeManager, deriveId: IdDerivation,
                                                rank: NodeTypeName -> nat, rank': NodeTypeName -> nat,
                                                command: CreateChildNodeWithVariant, slots: seq<(NodeName, NodeTypeName)>)
    requires Ranked(m, rank) && Ranked(m, rank')
    requires RankedBelow(rank, command.nodeTypeName, slots) && RankedBelow(rank', command.nodeTypeName, slots)
    ensures ExpandSlots(m, deriveId, rank, command, slots) == ExpandSlots(m, deriveId, rank', command, slots)
    decreases rank(command.nodeTypeName), 0, |slots|
  {
    if slots != [] {
      var n := |slots| - 1;
      SlotsRankIndependent(m, deriveId, rank, rank', command, slots[..n]);
      ExpandRankIndependent(m, deriveId, rank, rank', ChildCommand(deriveId, command, slots[n]));
    }
  }

  /** The editing session is handed down to the child commands but recorded
      in no event: the events do not depend on it. */
  lemma {:induction false} ExpandSessionIndependent(m: NodeTypeManager, deriveId: IdDerivation, rank: NodeTypeName -> nat,
                                                    command: CreateChildNodeWithVariant, session: EditingSessionIdentifier)
    requires Ranked(m, rank) && 0 < rank(command.nodeTypeName)
    ensures Expand(m, deriveId, rank, command) ==
            Expand(m, deriveId, rank, command.(editingSessionIdentifier := session))
    decreases rank(command.nodeTypeName), 1, 0
  {
    if command.nodeTypeName in m {
      SlotsSessionIndependent(m, deriveId, rank, command, session, m[command.nodeTypeName].autoCreatedChildNodes);
    }
  }

  lemma {:induction false} SlotsSessionIndependent(m: NodeTypeManager, deriveId: IdDerivation, rank: NodeTypeName -> nat,
                                                   command: CreateChildNodeWithVariant, session: EditingSessionIdentifier,
                                                   slots: seq<(NodeName, NodeTypeName)>)
    requires Ranked(m, rank)
    requires RankedBelow(rank, command.nodeTypeName, slots)
    ensures ExpandSlots(m, deriveId, rank, command, slots) ==
            ExpandSlots(m, deriveId, rank, command.(editingSessionIdentifier := session), slots)
    decreases rank(command.nodeTypeName), 0, |slots|
  {
    if slots != [] {
      var n := |slots| - 1;
      var other := command.(editingSessionIdentifier := session);
      SlotsSessionIndependent(m, deriveId, rank, command, session, slots[..n]);
      ExpandSessionIndependent(m, deriveId, rank, ChildCommand(deriveId, command, slots[n]), session);
      assert ChildCommand(deriveId, other, slots[n]) ==
             ChildCommand(deriveId, command, slots[n]).(editingSessionIdentifier := session);
    }
  }
}
