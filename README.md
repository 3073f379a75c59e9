# JSON/XML-to-attributes shredder, modelled in Dafny

The NiFi processor `JsonXmlToAttributesShredder` flattens a parsed JSON
document into a flat `String -> String` map. It walks the tree depth-first.
Every scalar member becomes one map entry, keyed by its fully-qualified name
(FQN): the field names and 0-based array indices leading to it, joined with
`_`. This project models that walk and proves what it stores.

- `JsonTree` (`json_tree.dfy`): the parsed tree. `Node` is an object (an
  ordered sequence of `Field`s), an array, an integer, a boolean, a string or
  null. `Members` is Jackson's `getFields()`: the members of an object, and
  nothing for any other node.
- `Decimal` (`decimal.dfy`): `String.valueOf` for integers. It renders array
  indices and number leaves. Each rendering has a parser and a round-trip
  lemma.
- `Fqn` (`fqn.dfy`): `getFQN` and the `_` join. It proves that `getFQN(path, name)`
  is the join of `path + [name]`. It also proves that the join is injective
  when no segment contains `_`, and shows that it is not injective otherwise.
- `Flatten` (`flatten.dfy`): the specification of one walk.
  `MemberEntries`, `FieldEntries` and `ArrayEntries` give the pre-order
  sequence of `put`s. `PutAll` performs them on a map, so the last write
  wins. `Shred(payload, root, nullText)` is the payload after one document.
- `Shredding` (`shredder.dfy`): the processor as a class. `flattened` is the
  `flattenedPaylod` instance field and `path` is the shared `fqnPath` list.
  `OnTrigger` is the root loop. `Visit` is the dispatch that the three member
  loops share, and `VisitMembers` is that loop. `HandleArray` and
  `HandleObject` keep the source's push-before-call, pop-inside-callee
  discipline. Each method is proved to leave `path` as the source does and
  to leave `flattened` equal to `PutAll` of the specified puts.
- `Leaves` (`leaves.dfy`): an independent description of the output. It
  lists the scalars the walk reaches, each with its path from the root:
  every scalar member of an object, where an array contributes only the
  members of its object elements. The walk's puts are proved to be exactly
  these leaves, keyed by the join of their paths. So at every leaf the path
  stack holds the segments from the root to the leaf's parent. From this the
  project proves the size theorem: when the generated names are distinct,
  the payload has one entry per reached leaf. They are distinct whenever the
  field names in each object are unique and contain no `_`. The reached
  leaves are at most the scalars of the document, and exactly those when the
  root is an object and every array holds only objects.
- `Examples` (`examples.dfy`): small documents worked through the
  specification. They cover a flat object, a nested object, an array of
  objects, an array of scalars, a `_` collision and two documents in a row.

The model keeps these behaviours of the code as written:
- A root that is not an object is not an error. Its `getFields()` is empty,
  so the root loop stores nothing (`JsonXmlToAttributesShredder.java:116`).
- Array elements are walked only through their own members
  (`:149-151`). An element that is a scalar or an array stores nothing.
  Nothing reports it. So "one entry per scalar" fails for a document whose
  arrays hold scalars or arrays (`Examples.ArrayOfScalars`,
  `Leaves.ScalarElementsUnreached`).
- The payload map is an instance field that is never cleared (`:40`). A
  second document's entries are added to the first document's.
- A null leaf stores whatever text the parser library gives a null node.
  The model keeps this as the abstract parameter `nullText`.

## Model

| member | source | states |
|---|---|---|
| `Decimal.NatText` | src/main/java/com/hortonworks/nifi/JsonXmlToAttributesShredder.java:148 | the text of an array index is non-empty, all decimal digits, and has no leading zero: the text of 0 is exactly "0" |
| `Decimal.ParseNatText` | src/main/java/com/hortonworks/nifi/JsonXmlToAttributesShredder.java:148 | reading an index's text back gives the index |
| `Decimal.NatTextInjective` | src/main/java/com/hortonworks/nifi/JsonXmlToAttributesShredder.java:147-148 | two indices have the same text exactly when they are equal, so the path segments of distinct array elements differ |
| `Decimal.IntText` | src/main/java/com/hortonworks/nifi/JsonXmlToAttributesShredder.java:130 | a number's text starts with '-' exactly when the number is negative, is digits otherwise, and has no leading zero; the text of 0 is exactly "0" |
| `Decimal.IntTextRoundTrip` | src/main/java/com/hortonworks/nifi/JsonXmlToAttributesShredder.java:130 | reading a number's text back gives the number |
| `Fqn.Join` | src/main/java/com/hortonworks/nifi/JsonXmlToAttributesShredder.java:215 | a single segment joins to itself; a non-empty path joins to a text as long as its segments plus one `_` between each two, starting with the first segment |
| `Fqn.GetFQN` | src/main/java/com/hortonworks/nifi/JsonXmlToAttributesShredder.java:210-220 | with an empty path the result is the field name unchanged; in every case it is the `_`-join of the path followed by the field name |
| `Fqn.JoinSnoc` | src/main/java/com/hortonworks/nifi/JsonXmlToAttributesShredder.java:212-215 | joining a non-empty path plus one more segment gives the path's join, `_`, then the segment |
| `Fqn.JoinInjective` | src/main/java/com/hortonworks/nifi/JsonXmlToAttributesShredder.java:215 | when no segment contains `_`, two non-empty paths with the same join are equal |
| `Fqn.SeparatorCollision` | src/main/java/com/hortonworks/nifi/JsonXmlToAttributesShredder.java:215-217 | a top-level field `x_y` and a field `y` inside `x` get the same name `x_y` |
| `Flatten.BoolText` | src/main/java/com/hortonworks/nifi/JsonXmlToAttributesShredder.java:133 | a boolean's text is "true" exactly when it is true and "false" exactly when it is false |
| `Flatten.LeafText` | src/main/java/com/hortonworks/nifi/JsonXmlToAttributesShredder.java:128-137 | a scalar's stored text: a number in decimal, a boolean as "true"/"false" in both directions, a string unchanged, a null as the parser's null text |
| `Flatten.NumLeafRoundTrip` | src/main/java/com/hortonworks/nifi/JsonXmlToAttributesShredder.java:130 | a number leaf's stored text reads back as the number |
| `Flatten.PutAll` | src/main/java/com/hortonworks/nifi/JsonXmlToAttributesShredder.java:130-136 | after a sequence of puts the keys are the old keys plus every put key: the map is only inserted into |
| `Flatten.PutAllAppend` | src/main/java/com/hortonworks/nifi/JsonXmlToAttributesShredder.java:117-139 | performing two runs of puts one after the other equals performing their concatenation |
| `Flatten.LastWriteWins` | src/main/java/com/hortonworks/nifi/JsonXmlToAttributesShredder.java:130-136 | a key holds the value of its last put |
| `Flatten.PutAllKeepsOthers` | src/main/java/com/hortonworks/nifi/JsonXmlToAttributesShredder.java:40 | a key that no put touches keeps its earlier value, so entries from earlier documents persist |
| `Flatten.PutAllSize` | src/main/java/com/hortonworks/nifi/JsonXmlToAttributesShredder.java:130-136 | puts with distinct new keys add exactly one entry each |
| `Flatten.Shred` | src/main/java/com/hortonworks/nifi/JsonXmlToAttributesShredder.java:114-139 | the payload after one document holds the old keys plus the keys of the root's puts; a root that is not an object leaves the payload unchanged |
| `Flatten.MemberEntries` | src/main/java/com/hortonworks/nifi/JsonXmlToAttributesShredder.java:119-137 | a scalar member makes exactly one put, its getFQN key with its leaf text; every key a member makes starts with its getFQN, and under an array or object it continues with `_`, so a container makes no put under its own name |
| `Flatten.FieldEntries` | src/main/java/com/hortonworks/nifi/JsonXmlToAttributesShredder.java:183-205 | below a non-empty path every key an object's members make starts with the path's join and `_` |
| `Flatten.ArrayEntries` | src/main/java/com/hortonworks/nifi/JsonXmlToAttributesShredder.java:147-175 | below a non-empty path every key an array's elements make starts with the path's join and `_` |
| `Flatten.FieldEntriesSnoc` | src/main/java/com/hortonworks/nifi/JsonXmlToAttributesShredder.java:183-205 | one more member appends exactly that member's puts |
| `Flatten.ArrayEntriesSnoc` | src/main/java/com/hortonworks/nifi/JsonXmlToAttributesShredder.java:147-175 | element i of an array appends the puts of its own members under the path extended by the decimal text of i |
| `Shredding.MemberLoopStep` | src/main/java/com/hortonworks/nifi/JsonXmlToAttributesShredder.java:183-205 | one turn of a member loop turns the payload before it into the payload with the next member's puts performed |
| `Shredding.ElementLoopStep` | src/main/java/com/hortonworks/nifi/JsonXmlToAttributesShredder.java:147-175 | one turn of handleArray's loop performs element i's puts under the path extended by i's text |
| `Shredding.Shredder.constructor` | src/main/java/com/hortonworks/nifi/JsonXmlToAttributesShredder.java:40 | a new processor starts with an empty payload |
| `Shredding.Shredder.OnTrigger` | src/main/java/com/hortonworks/nifi/JsonXmlToAttributesShredder.java:114-139 | the root loop starts from an empty path, ends with an empty path, and adds the root's puts to the existing payload (`Shred`) |
| `Shredding.Shredder.VisitMembers` | src/main/java/com/hortonworks/nifi/JsonXmlToAttributesShredder.java:183-205 | the member loop leaves the path as it found it and performs the members' puts in iteration order |
| `Shredding.Shredder.Visit` | src/main/java/com/hortonworks/nifi/JsonXmlToAttributesShredder.java:118-138 | one member restores the path: push then callee pop for a container, no change for a scalar. It performs exactly the member's puts, and a scalar's one put is keyed by getFQN |
| `Shredding.Shredder.HandleArray` | src/main/java/com/hortonworks/nifi/JsonXmlToAttributesShredder.java:145-178 | element i is walked under path + index text, through its own members only; the index is popped after each element and the caller's name at the end |
| `Shredding.Shredder.HandleObject` | src/main/java/com/hortonworks/nifi/JsonXmlToAttributesShredder.java:180-208 | the members are walked under the current path, then the caller's pushed name is popped |
| `Leaves.MemberLeaves` | src/main/java/com/hortonworks/nifi/JsonXmlToAttributesShredder.java:119-137 | a scalar member is its own single leaf `[name]`; every leaf under an array or object member has a path of two or more segments starting with the member's name |
| `Leaves.FieldLeaves` | src/main/java/com/hortonworks/nifi/JsonXmlToAttributesShredder.java:183-205 | every leaf under an object's members is a scalar whose path starts with one of the member names |
| `Leaves.ElementLeaves` | src/main/java/com/hortonworks/nifi/JsonXmlToAttributesShredder.java:147-151 | every leaf under an array's elements is a scalar whose path starts with the text of an index below the array's length |
| `Leaves.MemberEntriesAreKeyedLeaves` | src/main/java/com/hortonworks/nifi/JsonXmlToAttributesShredder.java:153-171 | the puts for a member are its leaves, each keyed by the join of the path stack plus the leaf's path: the stack holds the segments from the root to each leaf's parent |
| `Leaves.FieldEntriesAreKeyedLeaves` | src/main/java/com/hortonworks/nifi/JsonXmlToAttributesShredder.java:183-205 | the same for the members of an object |
| `Leaves.ArrayEntriesAreKeyedLeaves` | src/main/java/com/hortonworks/nifi/JsonXmlToAttributesShredder.java:147-175 | the same for the elements of an array, each element under its index text |
| `Leaves.ShredIsKeyedLeaves` | src/main/java/com/hortonworks/nifi/JsonXmlToAttributesShredder.java:114-139 | a document's puts are its leaves keyed by their root-to-leaf paths, whatever the sibling leaves are, so there is one put per reached leaf |
| `Leaves.ShredSize` | src/main/java/com/hortonworks/nifi/JsonXmlToAttributesShredder.java:114-139 | when the generated names are pairwise distinct, shredding into an empty payload gives exactly one entry per reached leaf |
| `Leaves.MemberLeavesDistinct` | src/main/java/com/hortonworks/nifi/JsonXmlToAttributesShredder.java:119-137 | in a tree with unique `_`-free field names, no two leaves under a member share a path |
| `Leaves.FieldLeavesDistinct` | src/main/java/com/hortonworks/nifi/JsonXmlToAttributesShredder.java:183-205 | the same for the members of an object |
| `Leaves.ElementLeavesDistinct` | src/main/java/com/hortonworks/nifi/JsonXmlToAttributesShredder.java:147-175 | the same for the elements of an array, whose index texts differ |
| `Leaves.KeyedDistinct` | src/main/java/com/hortonworks/nifi/JsonXmlToAttributesShredder.java:210-220 | distinct `_`-free leaf paths under a `_`-free path stack get distinct keys |
| `Leaves.WellFormedShredSize` | src/main/java/com/hortonworks/nifi/JsonXmlToAttributesShredder.java:114-139 | for a tree with unique `_`-free field names, the generated names are distinct and the payload gets one entry per reached leaf |
| `Leaves.MemberLeavesCount` | src/main/java/com/hortonworks/nifi/JsonXmlToAttributesShredder.java:119-137 | a member yields at most one leaf per scalar in its value, and exactly one per scalar when every array below it holds only objects |
| `Leaves.FieldLeavesCount` | src/main/java/com/hortonworks/nifi/JsonXmlToAttributesShredder.java:183-205 | the same for the members of an object |
| `Leaves.ElementLeavesCount` | src/main/java/com/hortonworks/nifi/JsonXmlToAttributesShredder.java:147-151 | the same for the elements of an array, with equality when every element is an object whose arrays hold only objects |
| `Leaves.ReachedScalars` | src/main/java/com/hortonworks/nifi/JsonXmlToAttributesShredder.java:114-139 | a document yields at most one leaf per scalar it holds, and exactly one when the root is an object and every array holds only objects |
| `Leaves.ScalarElementsUnreached` | src/main/java/com/hortonworks/nifi/JsonXmlToAttributesShredder.java:149-151 | `{"a":[1,2]}` holds two scalars and yields no leaf |
| `Examples.FlatDocument` | src/main/java/com/hortonworks/nifi/JsonXmlToAttributesShredder.java:127-137 | `{"a":1,"b":"x","c":true}` gives `{a:"1", b:"x", c:"true"}` |
| `Examples.NestedObject` | src/main/java/com/hortonworks/nifi/JsonXmlToAttributesShredder.java:123-126 | `{"a":{"b":5}}` gives `{a_b:"5"}` |
| `Examples.ArrayOfObjectsEntries` | src/main/java/com/hortonworks/nifi/JsonXmlToAttributesShredder.java:147-174 | the elements of `[{"b":1},{"b":2}]` under `a` are put as `a_0_b` and `a_1_b` |
| `Examples.ArrayOfObjects` | src/main/java/com/hortonworks/nifi/JsonXmlToAttributesShredder.java:119-122 | `{"a":[{"b":1},{"b":2}]}` gives `{a_0_b:"1", a_1_b:"2"}` |
| `Examples.ArrayOfScalars` | src/main/java/com/hortonworks/nifi/JsonXmlToAttributesShredder.java:149-151 | `{"a":[1,true,"s"]}` gives the empty map |
| `Examples.CollisionEntries` | src/main/java/com/hortonworks/nifi/JsonXmlToAttributesShredder.java:215-217 | `{"x_y":"1","x":{"y":"2"}}` makes two puts, both under `x_y` |
| `Examples.CollisionLastWins` | src/main/java/com/hortonworks/nifi/JsonXmlToAttributesShredder.java:215-217 | `{"x_y":"1","x":{"y":"2"}}` gives `{x_y:"2"}`: the later put wins |
| `Examples.FirstDocument` | src/main/java/com/hortonworks/nifi/JsonXmlToAttributesShredder.java:127-131 | `{"a":-7}` gives `{a:"-7"}` |
| `Examples.PayloadAccumulates` | src/main/java/com/hortonworks/nifi/JsonXmlToAttributesShredder.java:40 | shredding `{"b":null}` after `{"a":-7}` gives `{a:"-7", b:nullText}` |

## Left out

- NiFi plumbing is not modelled. This covers `init`, `getRelationships`,
  `getSupportedPropertyDescriptors`, the `Shredder Type` property, the two
  relationships, and `session.get/create/read/putAllAttributes/transfer`.
  It is host-framework wiring with no logic.
- Parsing is not modelled: Jackson's `readTree` and org.json's
  `XML.toJSONObject`. These are library calls, so the model starts from an
  already-built tree. The failure route on a parse error is not modelled
  either.
- Logging is not modelled. The `getLogger().debug` calls have no effect on
  the result.
- Floating-point numbers are not modelled. `Num` holds an integer and is
  rendered in decimal. Java's text for doubles depends on its
  floating-point formatting.
- `Flatten.LeafText` does not assert a concrete text for null leaves. The
  parser library decides it, so the model takes it as the parameter
  `nullText`.
- A missing tree is not modelled. When the parse yields no tree, the source
  dereferences null at line 116.
- Node kinds beyond object, array, number, boolean, string and null are not
  modelled. These are the parser's binary, POJO and missing nodes, which
  the source would send down its string branch.
- The return values of `handleArray` and `handleObject` are not modelled.
  Both always return null and the callers ignore them.
- `path` is a class field in the model. In the source, `fqnPath` is a local
  list in `onTrigger` passed by reference to the helpers. `OnTrigger`
  resets the field to empty, so the behaviour is the same.
- Concurrency is not modelled. The source has none.
