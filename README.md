# Node command handler of the Neos content repository, in Dafny

This project models the command handler of an event-sourced content tree. It is
`NodeCommandHandler` of the node context in Neos.ContentRepository.

A "create child node with variant" command asks for one node. The node has a type and
variant dimension values, and sits under a parent. The handler turns the command into
the ordered list of `ChildNodeWithVariantWasCreated` events:

- one event for the requested node;
- then, for every auto-created child slot of the node's type, in the schema's order,
  the events of that child's whole subtree, expanded recursively and depth-first.

Each event carries the default values of its own node type's properties, each paired
with that type's declared type for the property. A type that the node type manager
does not know raises `NodeTypeNotFound` (code 1505838774). This happens at any depth,
and then nothing is published. On success the handler publishes the whole list, in one
`publishMany` call, to the stream `"editingsession:"` followed by the session identifier.
The set-property command is accepted and does nothing.

Files:

- `domain.dfy` (module `Domain`): value objects, both commands, the event, the node
  type schema as the handler reads it, the `NodeTypeNotFound` error, and `Result`.
- `expansion.dfy` (module `Expansion`): the expansion as a pair of mutually recursive
  specification functions, `Expand` and `ExpandSlots`, and the lemmas about them. Next to
  them are independent reference definitions over the schema alone: `Resolvable` and
  `NodeCount`.
- `command_handler.dfy` (module `CommandHandling`): the handler as a class, and the event
  publisher as a class holding the log of its publish calls. The recursive method
  `ChildNodeWithVariantWasCreatedFromCommand` builds the event list with loops, as the
  source does, and is proved equal to `Expand`.
- `scenarios.dfy` (module `Scenarios`): concrete schemas and what expanding over them
  yields.

Modelling decisions:

- The node type manager is a `map` from type name to `NodeType`. A `NodeType` holds:
  - the default values of its properties;
  - a total property-type function;
  - the auto-created child slots, as a sequence of (slot name, child type name) in
    enumeration order.
- `NodeIdentifier::forAutoCreatedChildNode` is an arbitrary function
  `deriveId(name, parentIdentifier)`, passed in as a parameter.
- The source does not guard against cyclic schemas. Its recursion does not end exactly
  when its depth-first walk, before it meets an unknown type, comes back to a type that is
  already on its current path. The model therefore takes an explicit ghost witness `rank`.
  `Ranked(m, rank)` says that from every known type of positive rank, the rank strictly
  drops to each auto-created child type and stays positive. Expansion requires
  `0 < rank(command's type)`. Types of rank 0 are outside the witness, so a cycle the
  command never reaches does not exclude the manager (`DetachedCycleLeavesPageExpandable`).
  Such a witness exists for a type exactly when no cycle is reachable from it, which is
  stricter than what the source needs (see "## Left out"). `ExpandRankIndependent` shows
  that the choice of witness does not change the result.
- A thrown exception is a `Failure(NodeTypeNotFound(name))`. The first failure wins,
  because PHP's exception leaves the loop before `array_merge`. No partial list exists.

## Model

| member | source | states |
|---|---|---|
| Expansion.Expand | Neos.ContentRepository/Classes/Domain/Context/Node/NodeCommandHandler.php:53-96 | an unknown command type fails with `NodeTypeNotFound` carrying exactly that name; every failure names a type the manager lacks; on success the list is non-empty and its first event has the command's parent identifier, node identifier, node name, type name and dimension values |
| Expansion.ExpandSlots | Neos.ContentRepository/Classes/Domain/Context/Node/NodeCommandHandler.php:80-95 | the child-slot loop fails only with the name of a type the manager lacks |
| Expansion.ExpandSucceedsIff | Neos.ContentRepository/Classes/Domain/Context/Node/NodeCommandHandler.php:55-59 | expansion succeeds if and only if the command's type and, transitively, every auto-created child type are known (`Resolvable`); otherwise it fails and yields no events |
| Expansion.SlotsSucceedIff | Neos.ContentRepository/Classes/Domain/Context/Node/NodeCommandHandler.php:80-92 | the slot loop succeeds if and only if every slot's type is resolvable |
| Expansion.SiblingsInOrder | Neos.ContentRepository/Classes/Domain/Context/Node/NodeCommandHandler.php:80-95 | expanding a slot list split in two is the first part's events followed by the second part's; a failure in the first part hides any in the second |
| Expansion.ChildSubtreeInPlace | Neos.ContentRepository/Classes/Domain/Context/Node/NodeCommandHandler.php:80-95 | the complete subtree of slot `i` sits between the subtrees of the slots before it and those after it (depth-first pre-order, siblings in schema order) |
| Expansion.PrefixFailureIsFinal | Neos.ContentRepository/Classes/Domain/Context/Node/NodeCommandHandler.php:85-92 | once a prefix of the slots fails, the whole loop fails with that same error |
| Expansion.ExpandInherits | Neos.ContentRepository/Classes/Domain/Context/Node/NodeCommandHandler.php:63-91 | in every event the dimension values are the root command's, and the property map has exactly the keys of that event's own type's defaults, each paired with its raw default and that type's declared property type; every event after the first has identifier `deriveId(nodeName, parentIdentifier)` |
| Expansion.SlotsInherit | Neos.ContentRepository/Classes/Domain/Context/Node/NodeCommandHandler.php:80-92 | the same for all events of the slot loop, including the derived identifier of each |
| Expansion.ExpandLinked | Neos.ContentRepository/Classes/Domain/Context/Node/NodeCommandHandler.php:71-95 | tree shape: every event after the first has its parent earlier in the list, and fills an auto-created slot (name, type) of that parent's type |
| Expansion.SlotsLinked | Neos.ContentRepository/Classes/Domain/Context/Node/NodeCommandHandler.php:80-92 | the same for a prefix of a node's slot list, placed after that node's own event |
| Expansion.ExpandLength | Neos.ContentRepository/Classes/Domain/Context/Node/NodeCommandHandler.php:69-95 | a successful expansion has as many events as the type's auto-created tree has nodes (`NodeCount`: 1 plus the sum over the child subtrees) |
| Expansion.SlotsLength | Neos.ContentRepository/Classes/Domain/Context/Node/NodeCommandHandler.php:80-92 | the slot loop yields the sum of its subtrees' node counts |
| Expansion.ExpandRankIndependent | Neos.ContentRepository/Classes/Domain/Context/Node/NodeCommandHandler.php:53-96 | the result is determined by schema, derivation and command alone; the termination witness does not influence it |
| Expansion.ExpandSessionIndependent | Neos.ContentRepository/Classes/Domain/Context/Node/NodeCommandHandler.php:85-92 | the editing session is handed down to child commands but recorded in no event: changing it leaves the result unchanged |
| CommandHandling.EventPublisher.PublishMany | Neos.ContentRepository/Classes/Domain/Context/Node/NodeCommandHandler.php:43 | one call appends one (stream, events) entry to the log; the stream gains exactly those events, in order, and every other stream is unchanged |
| CommandHandling.NodeCommandHandler.StreamNameForEditingSession | Neos.ContentRepository/Classes/Domain/Context/Node/NodeCommandHandler.php:31-34 | the stream name is `"editingsession:"` followed by the session identifier, and the identifier can be read back from it |
| CommandHandling.NodeCommandHandler.StreamNamesDistinct | Neos.ContentRepository/Classes/Domain/Context/Node/NodeCommandHandler.php:31-34 | two sessions share a stream name if and only if they are the same session |
| CommandHandling.NodeCommandHandler.HandleCreateChildNodeWithVariant | Neos.ContentRepository/Classes/Domain/Context/Node/NodeCommandHandler.php:39-44 | on success exactly one publish call appends the whole expansion to the session's stream; on an unknown type the error is raised and nothing is published |
| CommandHandling.NodeCommandHandler.BuildPropertyDefaultValuesAndTypes | Neos.ContentRepository/Classes/Domain/Context/Node/NodeCommandHandler.php:63-67 | the loop builds a map with exactly the type's default-value keys, each paired with its raw default and the declared property type |
| CommandHandling.NodeCommandHandler.ChildNodeWithVariantWasCreatedFromCommand | Neos.ContentRepository/Classes/Domain/Context/Node/NodeCommandHandler.php:53-96 | the loop-and-recursion method returns exactly `Expand` of its command, the error case included |
| CommandHandling.NodeCommandHandler.HandleSetProperty | Neos.ContentRepository/Classes/Domain/Context/Node/NodeCommandHandler.php:98-104 | publishes nothing: the publisher is unchanged |
| Scenarios.PageYieldsOneEvent | Neos.ContentRepository/Classes/Domain/Context/Node/NodeCommandHandler.php:63-78 | a page type with one default property and no children yields one event whose property map pairs that default with its declared type |
| Scenarios.ChainYieldsThreeEventsInPreOrder | Neos.ContentRepository/Classes/Domain/Context/Node/NodeCommandHandler.php:71-95 | a chain of one child slot below one child slot yields exactly three events (node, child, grandchild), each the child of the one before, with derived identifiers |
| Scenarios.NestedYieldsThreeEventsInPreOrder | Neos.ContentRepository/Classes/Domain/Context/Node/NodeCommandHandler.php:71-95 | Page with slot "main" of type ContentCollection, which has slot "item" of type Text, yields [Page, ContentCollection, Text]; the collection is named "main" and its parent is the page, the text is named "item" and its parent is the collection, each with its derived identifier |
| Scenarios.UnknownBeforeCycleHasNoWitness | Neos.ContentRepository/Classes/Domain/Context/Node/NodeCommandHandler.php:80-92 | the limit of the witness: a page whose first slot has an unknown type and whose second slot leads into a cycle admits no witness, although the source would stop at the unknown type |
| Scenarios.UnknownInsideCycleHasNoWitness | Neos.ContentRepository/Classes/Domain/Context/Node/NodeCommandHandler.php:80-92 | the limit of the witness: two types that auto-create each other, the second with an unknown type in its first slot, admit no witness for the first, although the source would stop at the unknown type before returning to it |
| Scenarios.DetachedCycleLeavesPageExpandable | Neos.ContentRepository/Classes/Domain/Context/Node/NodeCommandHandler.php:53-96 | a schema holding a self-referencing type the page never reaches still admits a witness, and a page command yields its one event |

## Left out

- The event publisher is external I/O. The model keeps only the log of its calls, not
  durability, atomicity or failure of the append.
- The node type manager's schema loading and type inheritance are not modelled. The
  model treats the manager as a finished map of node types.
- `NodeIdentifier::forAutoCreatedChildNode` is not part of this model. It is left as an
  arbitrary function of (name, parent identifier).
- The validation inside the value-object constructors (`NodeName`, `NodeTypeName`,
  `PropertyValue`) is not modelled. Names and identifiers are plain strings.
- The exception's message text is not modelled; only the type name and the code are kept.
  Its `sprintf` format contains a malformed `%"` conversion. The model follows PHP 7, where
  `sprintf` tolerates it. Under PHP 8 `sprintf` throws a `ValueError` for an unknown format
  specifier before the `NodeTypeNotFoundException` is built, so there an unknown type would
  raise that `ValueError` instead of `Failure(NodeTypeNotFound(name))`. The exception
  class is not part of this model; the model assumes that its constructor takes the type
  name as its third argument. A constructor inherited unchanged from `\Exception`, which
  expects a previous `Throwable` there, would raise an `Error` instead.
- `handleSetProperty` is a TODO in the source. Its command keeps only the editing session,
  and the method does nothing.
- Concurrency between commands on the same stream is the publisher's concern and is
  not modelled.
- Every command from whose type a cycle of auto-created children is reachable is
  excluded: no witness gives such a type a positive rank. This includes commands on which
  the source ends with `NodeTypeNotFound`, because its depth-first walk meets an unknown
  type before it comes back to a type already on its current path. The unknown type may
  sit before the cycle (`UnknownBeforeCycleHasNoWitness`) or inside it
  (`UnknownInsideCycleHasNoWitness`). For those commands the model promises nothing. The
  source's recursion does not end only when the walk returns to a type on its current path
  before it meets any unknown type. Cycles the command cannot reach are admitted. The model adds no cycle guard
  (visited set), because the code has none.
- PHP arrays keep insertion order. The model's property and dimension maps are unordered,
  so the order of keys in an event's property map is not captured.
- Raw default values are limited to null, booleans, integers and strings. Other PHP values
  are not modelled.
- In PHP the auto-created children form a keyed array, so slot names are unique. The model's
  slot sequence does not require that; no proof depends on it.
