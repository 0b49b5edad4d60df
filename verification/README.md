# OpenARK verified

A Dafny model of the parts of OpenARK in which a mistake is hardest to see, with
proofs of what they guarantee. `dafny verify dfyconfig.toml` checks everything.

The Rust code works by changing shared things step by step: a parser's map, a JSON
value behind mutable references, cluster records behind an API. Each such piece is
a class here, whose methods follow the code statement by statement and are proved
to compute a function of the old state. The theorems are about those functions. The
`Meaning` and `Edges` files say once more what each operation does, in every case and
without those functions: in the bounds and defaults of the schema, the fields of the
records, or the numbers of a column.

| files | what they model |
|---|---|
| `Names`, `Order`, `Schema` | field names such as `/spec/node/`, sorted maps, and field kinds |
| `Validator`, `ValidatorTheorems`, `MergeTheorems`, `ValidatorMeaning` | the model validator, which turns a flat list of fields into a closed tree and merges other models below a name |
| `Json`, `Template`, `ItemTemplate`, `CursorTheorems` | the template engine: a cursor that walks a JSON value along the schema and writes it in place |
| `FillTermination`, `FillTheorems`, `ConformTheorems`, `SuppliedTheorems`, `EngineMeaning`, `Conversion` | what filling defaults and converting items guarantee on the trees the validator accepts |
| `ConversionRange`, `Idempotence`, `IdempotenceTheorems`, `IdempotenceExamples` | which values conversions yield, and when converting them again gives them back |
| `KissBox`, `KissWorld`, `KissActors`, `KissSafety`, `KissEdges`, `KissBootstrap`, `KissProgress` | the life cycle of bare-metal boxes and the queue in which they join a cluster |
| `Calls`, `DashJob`, `DashJobController`, `DashJobSafety`, `DashJobEdges` | the job controller with its finalizer, under calls that fail anywhere |
| `Bindings`, `BindingControllers`, `BindingSafety`, `BindingEdges` | the controllers of models, storages and bindings |
| `Session`, `SessionManager`, `SessionSafety`, `SessionEdges` | binding users to nodes by labels |
| `PrimaryKey` | the encoding of user names into object names |
| `Folding`, `FoldingMachine`, `FoldingTheorems`, `AssignmentTheorems`, `FoldingMeaning` | compiling scripts with constant folding, and running them on the columns of a data frame |

How the world is abstracted:

- A field name is the sequence of its components; `Names` proves that this loses
  nothing. A cursor is a sequence of keys and indices; empty entries between
  slashes, which stay where they are, are dropped.
- Snake-case conversion, lower-casing, the parsers of addresses, identifiers and
  instants, and the clock are parameters. Snake case is taken to yield a key, never
  an index or an empty entry, and to change nothing the second time. The length of a
  text is its number of characters, which stand for bytes.
- Floats are reals. Machine integers keep their bounds: an integer field only takes
  numbers of 64 bits, a text only lengths of 32. A number that a graph script puts
  into a column is rounded to an integer of 64 bits, as the code does.
- In graph scripts a column is an expression over the columns of the first frame; two
  columns count as equal only when their expressions are the same, so equalities hold
  for all contents of the columns and whatever the library computes. `FoldingMeaning`
  fills the columns in: a cell is a real, a truth value or blank; operations on cells of
  the wrong kind and quotients by zero are blank, a blank condition counts as false, and
  aggregates skip what is no number.
- One reconcile of a KISS or binding controller is one atomic step. The job
  controller and the session manager are finer: each of their calls may be refused,
  or take effect without the caller knowing, and a run may stop after any call.
  Different runs are not interleaved; the code checks and then acts without a guard.
- In KISS, the environment changes groups only on boxes that are not joining, and
  boxes report a commission only while they are commissioning.
- A job's templates render to the same resources throughout its life and no other
  job touches them. A user's alias is the user's name.
- `edited` in `Bindings` is history: it remembers that a binding's spec was written
  after its status became ready.

Where the code does less than it seems to promise, the model follows the code, a
lemma gives the input, and the theorem names the condition:

- A field without descendants may list itself; every other accepted, non-empty table
  is a closed tree (`AcceptedIsClosedTree`). Filling visits a root object that lists
  itself for ever, and ends on every map of all other accepted tables
  (`FillingEndsExactly`); another object that lists itself is never filled, and an
  array that does only when it has no elements (`SelfListingFieldFails`). `FilledWithin`
  describes filling on all tables, `Filled` on those where no field lists the root.
- Entering an absent array by an index panics, so object arrays can only be updated
  with the empty array (`EmptyOrPanic`); filling handles any array already there.
- A name of the schema that is not snake case is never written by an item, but the
  entry it has in a result is written to the sibling that is its snake case. So
  conversion is idempotent only on quiet schemas, and on all of these
  (`IdempotentExactly`); competing siblings need not do harm (`TwinsAreStable`).
- Bootstraps are exclusive only while nobody takes a box whose bootstrap is pending out
  of its cluster's control planes; every such move can end in two
  (`CareIsExact`, `MovedBoxSplitsCluster`).
- Automatic login writes a node's user label without looking at the session
  (`AutologinKeepsLocked`).
- Folding turns a call without arguments into an undefined number
  (`EmptyCallSlipsThrough`); that is the only way in which folding changes a script
  (`FoldingPreservesMeaning`).
- Scripts read the first definition of a name, and a slice sees what was written to its
  columns since (`ReassignmentIsIgnored`, `ReusedSliceFollowsColumn`). Assignment is
  the ordinary one exactly while no name is stale (`OrdinaryExactly`).

## Model

| member | source | states |
|---|---|---|
| `Names.RenderParses` | crates/dash/provider/api/src/lib.rs:35-36 | every component path renders to a well-formed name and parses back to itself |
| `Names.ParseRenders` | crates/dash/provider/api/src/lib.rs:35-36 | every well-formed name is the rendering of its component path, so names and paths are in bijection |
| `Names.MergeNameConcatenates` | crates/dash/operator/src/validator/model.rs:600-606 | merging names concatenates their paths |
| `Names.MergeNameIdentity` | crates/dash/operator/src/validator/model.rs:600-606 | `/` is a left and right identity of merging |
| `Names.MergeNameAssociative` | crates/dash/operator/src/validator/model.rs:600-606 | merging is associative and never fails on well-formed names |
| `Names.ParentNameDropsLast` | crates/dash/operator/src/validator/model.rs:608-612 | the parent of a name has its path without the last component; the root has none |
| `Names.ParentOfMerge` | crates/dash/operator/src/validator/model.rs:600-612 | taking parents commutes with merging: the parent of a merged name is the merge with the parent |
| `Names.StartsWithIsPrefix` | crates/dash/operator/src/validator/model.rs:639-650 | the `starts_with` test on names is exactly the ancestor relation on paths |
| `Names.CharactersExactly` | crates/dash/provider/api/src/lib.rs:35-36 | the characters a component may begin and go on with, one by one |
| `Order.Sorted` | crates/dash/operator/src/validator/model.rs:473-598 | a `BTreeMap` or `BTreeSet` hands out exactly its elements in strictly increasing key order |
| `Order.SortedUnique` | crates/dash/operator/src/validator/model.rs:473-598 | that order is canonical: a sorted list is determined by its elements |
| `Order.LessExactly` | crates/dash/operator/src/validator/model.rs:473-598 | one name comes before another if and only if they agree up to some place where the first ends or has the smaller byte |
| `Validator.NormalizeIdempotent` | crates/dash/operator/src/validator/model.rs:438-445 | sorting and deduplicating a children list a second time changes nothing |
| `Validator.ModelFieldsParser.InsertField` | crates/dash/operator/src/validator/model.rs:350-360 | the field replaces an entry of its name, which is reported as a conflict |
| `Validator.ModelFieldsParser.ParseField` | crates/dash/operator/src/validator/model.rs:382-449 | accepted if and only if the name is well-formed and new, some integer, float or length fits the bounds, and the default, if there is one, is within the bounds or among the choices; then the table gains exactly the field with sorted children |
| `Schema.KindOkExactly` | crates/dash/operator/src/validator/model.rs:387-437 | the comparisons of bounds and default come to this: some value fits the bounds, and the default is legal |
| `ValidatorMeaning.NormalizeExactly` | crates/dash/operator/src/validator/model.rs:438-445 | an aggregate lists the same children, each once and in order, and keeps its kind; every other kind is unchanged |
| `ValidatorMeaning.ValidatedFieldsTakeSome` | crates/dash/operator/src/validator/model.rs:387-437 | every integer, number and text field of a validated model takes some value when it is updated, wherever it occurs |
| `Validator.ModelFieldsParser.MergeField` | crates/dash/operator/src/validator/model.rs:458-471 | accepted if and only if the moved field is; name and children are all moved below the parent |
| `Validator.ModelFieldsParser.MergeFields` | crates/dash/operator/src/validator/model.rs:451-456 | merges every field of the model or fails exactly when one of them clashes or is malformed |
| `Validator.AssertAggregationType` | crates/dash/operator/src/validator/model.rs:474-490 | succeeds if and only if each listed child lies at or below the name and is a given field |
| `Validator.ModelFieldsParser.CreateParentObject` | crates/dash/operator/src/validator/model.rs:492-530 | creates the missing object and its missing ancestors, each listing its direct children; only fails when an explicit aggregate above does not list its direct children |
| `Validator.ModelFieldsParser.CreateParentObjects` | crates/dash/operator/src/validator/model.rs:532-543 | after the climb every ancestor is present and every explicit aggregate above lists exactly its direct children |
| `Validator.ModelFieldsParser.FinalizeField` | crates/dash/operator/src/validator/model.rs:589-594 | one round of the loop: the name has passed every check, or the whole table is not acceptable |
| `Validator.ModelFieldsParser.Finalize` | crates/dash/operator/src/validator/model.rs:473-598 | succeeds if and only if `Accepts` holds of the given fields, and then returns, in name order, the given fields completed by one generated object per missing ancestor; both loops and the recursion terminate |
| `Validator.ValidateNativeFields` | crates/dash/operator/src/validator/model.rs:72-82 | the result of validating a native list is `Validated`, for every list, success and failure |
| `Validator.ValidateFields` | crates/dash/operator/src/validator/model.rs:51-70 | the same for specifications that also refer to other models |
| `ValidatorTheorems.CompletedHasAncestors` | crates/dash/operator/src/validator/model.rs:492-543 | every ancestor of every name is present |
| `ValidatorTheorems.CompletedEntries` | crates/dash/operator/src/validator/model.rs:492-543 | explicitly given fields are unchanged; each other name lies above a given one and is a mandatory static object listing, in order, exactly the names one component longer below it |
| `ValidatorTheorems.AcceptedIsClosedTree` | crates/dash/operator/src/validator/model.rs:473-598 | an accepted table is a closed tree if and only if it is not empty and no field lists itself |
| `ValidatorTheorems.SelfListingAccepted` | crates/dash/operator/src/validator/model.rs:639-650 | the exception is real: a root that lists itself is accepted |
| `ValidatorTheorems.CompletedIsStable` | crates/dash/operator/src/validator/model.rs:473-598 | a completed table is accepted again and completion leaves it alone |
| `ValidatorTheorems.ReparsedFields` | crates/dash/operator/src/validator/model.rs:72-82 | parsing the returned fields one by one rebuilds the same table |
| `ValidatorTheorems.ValidationFixpoint` | crates/dash/operator/src/validator/model.rs:72-82 | validating an already validated list succeeds and returns the same list, in the same order with the same children |
| `ValidatorMeaning.AcceptsExactly` | crates/dash/operator/src/validator/model.rs:473-598 | fields are accepted together if and only if every aggregate lists given fields only: exactly the names directly below it when something is given below it, and at most itself otherwise |
| `ValidatorMeaning.ValidatesExactly` | crates/dash/operator/src/validator/model.rs:72-82 | validating a list succeeds if and only if every field is legal, no name comes twice, and every aggregate lists what is below it, all said of the given list alone |
| `ValidatorMeaning.ReturnsExactly` | crates/dash/operator/src/validator/model.rs:72-82 | the returned list holds, in the order of their names, exactly the prefixes of the given names: each given field as it was but for the order of its children, every other one a mandatory static object of the names directly below it |
| `MergeTheorems.PrefixedStaysNormalized` | crates/dash/operator/src/validator/model.rs:458-471 | a sorted list of children is still sorted after it was moved below a prefix, and bounds stay in order |
| `MergeTheorems.MovedChildren` | crates/dash/operator/src/validator/model.rs:492-530 | the direct children of a moved name are the moved direct children |
| `MergeTheorems.MovedAccepted` | crates/dash/operator/src/validator/model.rs:473-598 | an accepted, completed model is accepted below any prefix |
| `MergeTheorems.MergeIsEmbedding` | crates/dash/operator/src/validator/model.rs:51-70 | merging a validated non-empty model below a name always succeeds; below the name are exactly the original fields, with the prefix before their names and children and nothing else changed, and the only other entries are generated single-child ancestors |
| `Json.GetPut` | crates/dash/provider/src/input.rs:845-909 | what is written through a reference is read back through the same cursor |
| `Json.GetPutElsewhere` | crates/dash/provider/src/input.rs:845-909 | a cursor that is neither a prefix nor an extension of the one written through reads the same as before |
| `Json.Compose` | crates/dash/provider/src/input.rs:1114-1148 | reading and writing through a longer cursor is reading and writing below a node |
| `Template.WalkConcat` | crates/dash/provider/src/input.rs:845-909 | walking along a concatenation is walking along its parts |
| `Template.WalkSettles` | crates/dash/provider/src/input.rs:845-909 | walking again along a cursor that was walked changes nothing |
| `Template.WalkOneMore` | crates/dash/provider/src/input.rs:845-909 | from a walked cursor, one more entry touches only the node under it |
| `Template.WalkKeys` | crates/dash/provider/src/input.rs:1128-1147 | the schema name reached is the cursor without its array indices |
| `EngineMeaning.EnterKeyExactly` | crates/dash/provider/src/input.rs:880-905 | entering an object by a key of the schema keeps its entries and makes a missing one null; unknown keys are ignored and other values refused |
| `EngineMeaning.EnterIndexExactly` | crates/dash/provider/src/input.rs:855-879 | entering an array by an index keeps its items and grows it with nulls up to the index and no further; an absent array panics |
| `CursorTheorems.WalkWidens` | crates/dash/provider/src/input.rs:845-909 | the walk alone keeps every node; only nodes above the end of the cursor change, from null to a container or by growing, and new nodes elsewhere are null |
| `CursorTheorems.WriteThroughFrame` | crates/dash/provider/src/input.rs:840-909 | writing through `get_field` is read back; cursors that are neither prefix nor extension are unchanged or lead to the null padding of an array |
| `Template.Reprinted` | crates/dash/provider/src/input.rs:960-972 | a float default, printed and parsed back, keeps its value |
| `ItemTemplates.ItemTemplate.NewEmpty` | crates/dash/provider/src/input.rs:651-659 | the base map is the field list collected by name and the map is null |
| `EngineMeaning.LastFieldOfNameStays` | crates/dash/provider/src/input.rs:651-659 | of several fields of one name the base map keeps the last |
| `EngineMeaning.LeafUpdateExactly` | crates/dash/provider/src/input.rs:676-802 | a leaf takes a value of its type within the bounds, lengths, choices or formats of the schema, a list keeping its texts in order, and refuses any other with the error of its kind; a null leaves an optional leaf alone |
| `EngineMeaning.ItemsUpdateExactly` | crates/dash/provider/src/input.rs:827-836 | each item of the input updates the item in its place, the array grows as far as needed, and the other items stay |
| `EngineMeaning.UpdateAcceptsExactly` | crates/dash/provider/src/input.rs:665-838 | an update succeeds if and only if the item is acceptable for the schema: recursively, in terms of its types, bounds and optionality |
| `Template.FilledLeafExactly` | crates/dash/provider/src/input.rs:920-1021 | filling keeps a value, puts the declared default or the time or an empty list in place of a null, and reports a null that must not be |
| `ItemTemplates.ItemTemplate.TryGetField` | crates/dash/provider/src/input.rs:845-909 | the loop over the cursor does what `Walk` says: containers made on the way, unknown fields, refusals and the panic of an index into null |
| `ItemTemplates.ItemTemplate.GetField` | crates/dash/provider/src/input.rs:840-843 | as `TryGetField`, with an unknown field reported as an error |
| `ItemTemplates.ItemTemplate.UpdateFieldValue` | crates/dash/provider/src/input.rs:665-838 | the recursive in-place update yields the map, or the error, that the structural `UpdatedAt` gives for every cursor and input |
| `ItemTemplates.ItemTemplate.UpdateNode` | crates/dash/provider/src/input.rs:676-837 | the match on the kind changes only the node under the cursor, as `Updated` says |
| `ItemTemplates.ItemTemplate.UpdateFields` | crates/dash/provider/src/input.rs:804-824 | the loop over the entries of an object folds the update over its sorted keys |
| `ItemTemplates.ItemTemplate.UpdateItems` | crates/dash/provider/src/input.rs:827-836 | the loop over an array re-enters the same kind for each element |
| `ItemTemplates.ItemTemplate.FillDefaultValue` | crates/dash/provider/src/input.rs:911-1067 | the recursive in-place filling yields the map, or the error, that the structural `FilledWithinAt` gives, for every table and map on which filling ends |
| `ItemTemplates.ItemTemplate.FillNode` | crates/dash/provider/src/input.rs:915-1066 | the match on the kind changes only the node under the cursor, as `FilledWithin` says; a null leaf becomes exactly the value its kind declares, and without one stays null if it may and is an error otherwise |
| `ItemTemplates.ItemTemplate.FillFields` | crates/dash/provider/src/input.rs:1033-1036 | the loop over the listed children folds the filling over them; a listed root stays at the same cursor |
| `ItemTemplates.ItemTemplate.FillItems` | crates/dash/provider/src/input.rs:1044-1049 | the loop over the elements fills each as an object |
| `ItemTemplates.ItemTemplate.Finalize` | crates/dash/provider/src/input.rs:1069-1071 | filling from the root, and the map, wherever filling ends |
| `ItemTemplates.ConvertModelItem` | crates/dash/provider/src/storage/kubernetes.rs:530-537 | conversion is an update of an empty map at the root, then filling, for every field list and item on which filling ends |
| `FillTermination.WithinAgrees` | crates/dash/provider/src/input.rs:911-1067 | on tables where no field lists the root, two nested calls for each level of the schema are enough |
| `FillTermination.FillingEndsExactly` | crates/dash/provider/src/input.rs:911-1067 | on every accepted, non-empty model filling ends on every map if and only if the root is not an object that lists itself; if it is, filling the empty map never ends |
| `FillTermination.DeeperAgrees` | crates/dash/provider/src/input.rs:911-1067 | where filling ends, its outcome does not depend on how deep calls may be nested |
| `FillTermination.SelfListingIsAlone` | crates/dash/operator/src/validator/model.rs:639-650 | a field of an accepted model that lists itself has no other child and nothing below it |
| `FillTermination.SelfListingFieldFails` | crates/dash/provider/src/lib.rs:84-99 | any other field of an accepted model that lists itself: an object makes filling report a missing schema field, an array does so exactly when it has elements |
| `FillTermination.ConversionEnds` | crates/dash/provider/src/storage/kubernetes.rs:530-537 | where no field lists the root, a conversion ends within two nested calls for each level of the schema, with the outcome `Converted` gives |
| `FillTheorems.ClosedChildren` | crates/dash/provider/src/lib.rs:84-99 | on a closed tree the listed children are exactly the names directly below |
| `FillTheorems.FillRefinesCompletion` | crates/dash/provider/src/input.rs:911-1067 | on every closed tree and map whose containers fit it, filling either yields the order-free completion, exactly when each required leaf has a value or a default, or reports a missing value; no other error is possible, never a missing schema field |
| `FillTheorems.CompletionStable` | crates/dash/provider/src/input.rs:911-1067 | a completion fits, needs nothing more, and completing it at any later time changes nothing |
| `FillTheorems.FillIdempotent` | crates/dash/provider/src/input.rs:911-1067 | filling a filled map, whatever the clock says by then, succeeds and changes nothing |
| `FillTheorems.FillKeeps` | crates/dash/provider/src/input.rs:911-1067 | filling never changes a supplied scalar, at any cursor that no field of kind `None` lies on |
| `FillTheorems.FillSupplies` | crates/dash/provider/src/input.rs:1250-1257 | after a successful filling every object has all its children and every reachable leaf is non-null unless it, or an ancestor, is optional and it has no default |
| `ConformTheorems.UpdateKeepsPartial` | crates/dash/provider/src/input.rs:665-838 | whatever the input, an update that succeeds keeps every value that is there within its kind, bounds, length or choices, under names of the schema |
| `ConformTheorems.EmptyOrPanic` | crates/dash/provider/src/input.rs:827-836 | an absent object array takes the empty array; any other array panics |
| `ConformTheorems.CompletionConforms` | crates/dash/provider/src/input.rs:911-1067 | completing such a value makes it conform, because defaults were checked by the validator |
| `ConformTheorems.ConversionConforms` | crates/dash/provider/src/storage/kubernetes.rs:530-537 | every successful conversion conforms to the schema: objects have exactly the children of the schema, each leaf is in range, or null under an optional self or ancestor |
| `EngineMeaning.ConversionSucceedsExactly` | crates/dash/provider/src/storage/kubernetes.rs:530-537 | a conversion succeeds if and only if the item is acceptable and every leaf of the schema is given a value by some of its keys, has a declared default, or may be null |
| `EngineMeaning.OmittedIsDeclared` | crates/dash/provider/src/input.rs:911-1067 | a leaf to which the item gives nothing holds, after the conversion, exactly the default the schema declares for it, or null if there is none |
| `ConversionRange.ItemEchoes` | crates/dash/provider/src/input.rs:665-838 | updating an absent value with the reachable entries of a conforming one succeeds and fills back to it |
| `ConversionRange.ResultsExactly` | crates/dash/provider/src/storage/kubernetes.rs:530-537 | the values that converting some item yields are exactly the conforming ones in which every entry that no key reaches, because its name is not snake case, holds its default |
| `Idempotence.UpdateSucceeds` | crates/dash/provider/src/input.rs:665-838 | whether a write succeeds does not depend on what was written before |
| `Idempotence.UpdateLeaves` | crates/dash/provider/src/input.rs:665-838 | an update leaves in every field that is written as a whole the last value that its keys write there with effect |
| `Idempotence.ResultLeaves` | crates/dash/provider/src/input.rs:1106-1111 | what writing a result leaves in a field: what names after it leave, or its own entry, or what names before it leave |
| `IdempotenceTheorems.IdempotentExactly` | crates/dash/provider/src/storage/kubernetes.rs:530-537 | for every closed schema and two readings of the clock: converting any result again gives it back if and only if no item converts, or the schema is quiet (no entry that is never written changes a sibling it is written to, and defaults could be supplied) and what is never written does not show the time |
| `IdempotenceTheorems.UncontestedIsQuiet` | crates/dash/provider/src/input.rs:1106-1111 | a schema in which no name has a sibling that is its snake case, and no default of 4 GiB, is quiet |
| `IdempotenceTheorems.ConversionIdempotent` | crates/dash/provider/src/storage/kubernetes.rs:530-537 | so converting a result again gives the same value, whatever the clock says, when the schema's names are snake case and its default texts are below 4 GiB |
| `SuppliedTheorems.ConversionHolds` | crates/dash/provider/src/storage/kubernetes.rs:530-537 | in every field that is written as a whole a conversion holds the last value the item's keys write there with effect, or else the default |
| `SuppliedTheorems.ConversionKeepsSupplied` | crates/dash/provider/src/storage/kubernetes.rs:530-537 | a successful conversion holds every leaf, string array and dynamic object the item supplies under names of the schema, unless two of its keys compete for one field |
| `Conversion.AcceptedModelsConvert` | crates/dash/provider/src/storage/kubernetes.rs:530-537 | every accepted non-empty table in which no field lists itself is completed to a closed tree, filling terminates on it, and all conversions conform |
| `Conversion.ValidatedModelsConvert` | crates/dash/provider/src/storage/kubernetes.rs:530-537 | across both files: the same for every list the validator returns, with references to other models merged in |
| `IdempotenceExamples.LongDefaultIsNotStable` | crates/dash/provider/src/lib.rs:43-47 | a default of 4 GiB or more is filled in and then refused |
| `IdempotenceExamples.SiblingsAreNotStable` | crates/dash/provider/src/input.rs:1106-1111 | siblings of different kinds, one of which is the snake case of the other: a conversion yields a value that is then refused |
| `IdempotenceExamples.TwinsAreStable` | crates/dash/provider/src/input.rs:1106-1111 | two booleans that compete for one name: conversion is idempotent all the same, so competition alone is not the condition |
| `KissWorld.InOrder` | crates/kiss/ansible/src/cluster.rs:222-271 | the node map is iterated in order of creation, then host name, each control plane once |
| `KissActors.Store.FindNext` | crates/kiss/ansible/src/cluster.rs:277-283 | the search for the first node that is not running decides `IsNext` |
| `KissActors.Store.CanJoin` | crates/kiss/ansible/src/cluster.rs:202-208 | the test before a join decides `IsJoinable` |
| `KissActors.Store.Spawn` | crates/kiss/ansible/src/lib.rs:46-112 | deletes the box's earlier jobs, then refuses a join the cluster is not ready for, or adds exactly one job with its labels |
| `KissActors.Store.Reconcile` | crates/kiss/operator/src/ctx.rs:36-225 | the statement-by-statement reconcile takes the step `Reconciled`, and leaves in the records what `IsReconciled` spells out for each state, for every box, time and configuration |
| `KissActors.Store.UpdateBoxState` | crates/kiss/monitor/src/ctx.rs:98-129 | overwrites the state without any check and keeps the bind group |
| `KissActors.Store.MonitorJob` | crates/kiss/monitor/src/ctx.rs:29-94 | a succeeded job writes the state of its label, a failed one writes `Failed`, anything else nothing |
| `KissActors.Store.GetNewBox` | crates/kiss/gateway/src/main.rs:39-110 | a box that boots is new again and keeps its bind group; an unknown one is created |
| `KissActors.Store.Commission` | crates/kiss/gateway/src/main.rs:114-166 | a commissioned box is ready, unbound if it was reset |
| `KissSafety.CountsMeanAll` | crates/kiss/ansible/src/cluster.rs:163-196 | the compared counts are equal exactly when every control plane is ready, respectively running |
| `KissSafety.ReconcileEdges` | crates/kiss/operator/src/ctx.rs:51-225 | the operator's whole transition relation: each change of state has its reason (access, readiness, binding, the 30 second and two hour timeouts), a box is bound only when it starts to join, and its jobs are replaced by the one of the new state |
| `KissEdges.JoinableExactly` | crates/kiss/ansible/src/cluster.rs:202-283 | a control plane may join if and only if all of its cluster are ready or running and it is the oldest that does not run; another box if and only if all control planes run, and there is one unless the cluster is the default one |
| `KissEdges.SpawnedExactly` | crates/kiss/ansible/src/lib.rs:46-112 | the box keeps its critical jobs only, and gets one pending job with the labels of the new state unless it may not join yet |
| `KissEdges.ReconcileExactly` | crates/kiss/operator/src/ctx.rs:51-225 | in every state, what a reconcile does to the box and its jobs, in both directions: when each timeout, each binding and each join happens, when it does not, and what the new status and job hold |
| `KissEdges.JoinsExactly` | crates/kiss/operator/src/ctx.rs:113-225 | a ready box starts to join if and only if it is not bound, is neither external nor a generic worker of the disabled default cluster, and its turn has come |
| `KissEdges.MonitorExactly` | crates/kiss/monitor/src/ctx.rs:29-129 | for every box: a succeeded job writes the state of its label, a failed one writes `Failed`, access and binding stay; any other job writes nothing |
| `KissEdges.RegisterExactly` | crates/kiss/gateway/src/main.rs:39-110 | for every box: a known one starts over as new with its binding, an unknown one appears as a generic worker of the default cluster |
| `KissEdges.CommissionExactly` | crates/kiss/gateway/src/main.rs:114-166 | for every box: it becomes ready with the reported access, unbound exactly when it was reset; an unknown one is left out |
| `KissSafety.StepFrame` | crates/kiss/operator/src/ctx.rs:36-225 | a step writes no box but its own, and only the environment writes groups |
| `KissSafety.JoinStarts` | crates/kiss/ansible/src/lib.rs:97-112 | a join starts only in a reconcile of its box: for a control plane when all are ready or running and none comes before it, for any other box when all control planes run |
| `KissSafety.StepKeepsOneJoins` | crates/kiss/ansible/src/cluster.rs:202-208 | no step of any actor makes a second control plane of a cluster join |
| `KissSafety.AlwaysOneJoins` | crates/kiss/ansible/src/cluster.rs:202-208 | in every run of the four actors at most one control plane of each cluster is joining, and a joining box is bound to its group |
| `KissBootstrap.BootstrapsAlone` | crates/kiss/ansible/src/cluster.rs:210-212 | when a bootstrap is spawned no other of the cluster is pending |
| `KissBootstrap.AlwaysOneBootstrap` | crates/kiss/ansible/src/cluster.rs:210-212 | in every run in which no box with a pending bootstrap is taken out of the control planes of its cluster, two bootstraps of a cluster are never pending together |
| `KissBootstrap.CareIsExact` | crates/kiss/gateway/src/main.rs:46-66 | a step takes such a box away if and only if a run goes on from it, without another such step, to two pending bootstraps of one cluster |
| `KissBootstrap.MovedBoxSplitsCluster` | crates/kiss/gateway/src/main.rs:46-66 | a run from the empty world: a joining box boots again, is moved, and the next control plane bootstraps the cluster too |
| `KissSafety.BootstrapFindsNoneRunning` | crates/kiss/ansible/src/cluster.rs:210-212 | a bootstrap is spawned only while no control plane of the cluster runs |
| `KissSafety.NoLaterBootstrap` | crates/kiss/ansible/src/lib.rs:294-298 | along every run in which some control plane keeps running, no later join is a bootstrap |
| `KissSafety.AlwaysJoinJobsPlaced` | crates/kiss/ansible/src/lib.rs:68-95 | in every run a box with a join job has not been commissioned since |
| `KissProgress.OneIsNext` | crates/kiss/ansible/src/cluster.rs:277-283 | unless all control planes run, exactly one that does not is next in creation order |
| `KissProgress.QuietKeepsHealthy` | crates/kiss/operator/src/ctx.rs:36-225 | healthy states stay healthy under reconciles and successful jobs |
| `KissProgress.QuietLowers` | crates/kiss/operator/src/ctx.rs:113-225 | every such step that changes a control plane lowers 2·ready + joining; the others leave it alone |
| `KissProgress.NotStuck` | crates/kiss/operator/src/ctx.rs:113-225 | the only stuck states have all control planes running: otherwise one or two steps lower the measure |
| `KissProgress.Converges` | crates/kiss/monitor/src/ctx.rs:53-93 | from every healthy state at most two steps per unit of the measure lead to all control planes running |
| `DashJobController.Controller.TryCreate` | crates/dash/provider/src/client/job.rs:313-345 | creates a missing resource, patches an existing one unless it is immutable |
| `DashJobController.Controller.TryDelete` | crates/dash/provider/src/client/job.rs:348-368 | deletes an existing resource unless it is a volume claim |
| `DashJobController.Controller.ExecuteWith` | crates/dash/provider/src/client/job.rs:175-200 | the loop over the templates stops at the first failing call, with exactly the effects up to it |
| `DashJobController.Controller.IsRunning` | crates/dash/provider/src/client/job.rs:121-132 | the loop answers no at the first missing resource |
| `DashJobController.Controller.CreateAll` | crates/dash/operator/src/validator/job.rs:17-32 | creation, and deletion when it fails |
| `DashJobController.Controller.Reconcile` | crates/dash/operator/src/ctx/job.rs:34-175 | the reconcile takes the step `Reconciled`, and does what `IsReconciled` spells out for each state, for every placement of failing calls |
| `DashJobSafety.DeletionIsComplete` | crates/dash/provider/src/client/job.rs:348-368 | a deletion that reports success leaves none of the job's resources but claims |
| `DashJobSafety.CreationIsComplete` | crates/dash/provider/src/client/job.rs:313-345 | a creation that reports success leaves every resource live |
| `DashJobSafety.CreatedFrame` | crates/dash/operator/src/validator/job.rs:17-32 | a failed creation whose rollback succeeds leaves nothing but claims; the job object is untouched |
| `DashJobSafety.FoundIsExact` | crates/dash/provider/src/client/job.rs:121-132 | a job counts as running exactly when all its resources are live |
| `DashJobEdges.CallExactly` | crates/dash/provider/src/client/job.rs:313-345 | a refused call has no effect, any other one has, and only a fine one is seen to succeed |
| `DashJobEdges.TriedExactly` | crates/dash/provider/src/client/job.rs:313-368 | which resources need a call at all, and what the call does, refused, unacknowledged or fine |
| `DashJobEdges.ExecutedExactly` | crates/dash/provider/src/client/job.rs:175-200 | all resources are created or deleted if and only if no call failed; otherwise the first ones, up to the first failing call |
| `DashJobEdges.StartedExactly` | crates/dash/operator/src/ctx/job.rs:87-114 | a pending job, wherever calls fail: it becomes `Running`, with every resource live, if all calls of the creation succeeded, and `Error` otherwise; a rollback without failures leaves nothing but claims |
| `DashJobEdges.CompletedExactly` | crates/dash/operator/src/ctx/job.rs:115-140 | a running job is left alone while all its resources are live; otherwise it is completed exactly when they could be removed |
| `DashJobEdges.ReconcileExactly` | crates/dash/operator/src/ctx/job.rs:54-175 | what a reconcile does in every state, wherever its calls fail |
| `DashJobEdges.RunningIsLive` | crates/dash/operator/src/ctx/job.rs:87-101 | a reconcile that writes `Running` leaves every resource live |
| `DashJobSafety.ReconcileKeepsSound` | crates/dash/operator/src/ctx/job.rs:54-175 | no reconcile leaks, whatever calls fail or go unacknowledged |
| `DashJobSafety.NeverLeaks` | crates/dash/operator/src/ctx/job.rs:54-175 | over every run with failures anywhere, a live resource other than a claim implies the job object with its finalizer, and a completed job has none |
| `DashJobSafety.FineLife` | crates/dash/operator/src/ctx/job.rs:87-158 | a job's life while nothing fails: finalizer, then all resources and running, then completed with nothing but claims, then deletion after twenty minutes |
| `DashJobSafety.DeletedJobGoesAway` | crates/dash/operator/src/ctx/job.rs:54-175 | once calls stop failing, two reconciles remove a deleted job with everything it owns |
| `BindingControllers.Controllers.ReconcileModel` | crates/dash/operator/src/ctx/model.rs:38-130 | takes the step `ReconciledModel`; deletion waits for the ready bindings of the model |
| `BindingControllers.Controllers.ValidateStorage` | crates/dash/operator/src/validator/storage.rs:30-72 | a unique kind is accepted only when no storage publishes it |
| `BindingEdges.ModelExactly` | crates/dash/operator/src/ctx/model.rs:38-130 | the model after its reconcile, in every phase and for all answers from outside, and nothing else changed |
| `BindingEdges.StorageExactly` | crates/dash/operator/src/ctx/storage.rs:45-145 | the storage after its reconcile: a pending one is published if and only if no published one excludes it and the outside accepts it |
| `BindingEdges.ContextExactly` | crates/dash/operator/src/validator/model_storage_binding.rs:224-270 | a binding's context is loaded if and only if its model and storages are ready, and records them as they are |
| `BindingEdges.TablesExactly` | crates/dash/operator/src/validator/storage.rs:121-336 | which models can be bound to and unbound from which kinds of source and target |
| `BindingEdges.BindingExactly` | crates/dash/operator/src/ctx/model_storage_binding.rs:52-179 | the binding after its reconcile, in every phase and for all answers from outside, and nothing else changed |
| `BindingEdges.ReadyMeansAccepted` | crates/dash/operator/src/validator/model_storage_binding.rs:38-119 | a binding is made ready, or made again, only when everything it names is ready and the storage accepted it |
| `BindingControllers.Controllers.ReconcileStorage` | crates/dash/operator/src/ctx/storage.rs:45-145 | takes the step `ReconciledStorage`; deletion waits for the ready bindings that use the storage |
| `BindingSafety.RebindExactly` | crates/dash/operator/src/validator/model_storage_binding.rs:164-221 | a reconcile that meets no failure leaves a ready binding in step with its model and storages if and only if they are ready, the model is the one that was bound, and the storages did not change or can be unbound as they were and bound as they are; otherwise nothing changes |
| `BindingControllers.Controllers.ReconcileBinding` | crates/dash/operator/src/ctx/model_storage_binding.rs:52-179 | takes the step `ReconciledBinding` |
| `BindingSafety.StepKeepsSound` | crates/dash/operator/src/ctx/model_storage_binding.rs:63-112 | objects that are ready or being deleted have their finalizer, and only marked objects are in the deleting phase |
| `BindingSafety.PublishedBefore` | crates/dash/operator/src/validator/storage.rs:54-72 | a storage publishes a unique kind only if it did before or nobody did |
| `BindingSafety.StepKeepsKindsUnique` | crates/dash/operator/src/validator/storage.rs:54-72 | at most one storage per unique kind has a published kind, after every step |
| `BindingSafety.BindableIsUnbindable` | crates/dash/operator/src/validator/storage.rs:223-280 | what was bound can be unbound under either deletion policy |
| `BindingSafety.ModelStaysAlive` | crates/dash/operator/src/validator/model.rs:100-119 | a model some ready binding refers to does not go away |
| `BindingSafety.StorageStaysAlive` | crates/dash/operator/src/validator/storage.rs:338-349 | a storage some ready binding refers to does not go away and keeps its uid |
| `BindingSafety.BoundHolds` | crates/dash/operator/src/validator/model_storage_binding.rs:38-119 | a binding that becomes ready, or is bound again, refers to a live model and live storages with the recorded uids |
| `BindingSafety.PendingBecomesReady` | crates/dash/operator/src/ctx/model_storage_binding.rs:132-146 | a pending binding whose model and storages are ready and fit becomes ready in one reconcile |
| `BindingSafety.UnboundGoesAway` | crates/dash/operator/src/ctx/model.rs:112-127 | a model or storage marked for deletion that no ready binding refers to is gone after two reconciles |
| `BindingSafety.AlwaysGuarded` | crates/dash/provider/src/storage/kubernetes.rs:295-445 | in every run of the three controllers and their users, a ready binding not edited since it became ready has a live model and live storages whose uids match its status, and unique kinds are unique |
| `SessionManagers.SessionManager.Chain` | crates/vine/session/src/lib.rs:144-167 | the chained calls stop at the first failure, with exactly the effects up to it |
| `SessionManagers.SessionManager.TryCreate` | crates/vine/session/src/lib.rs:70-88 | login with optional rollback |
| `SessionSafety.GuardMeans` | crates/vine/rbac/src/session.rs:35-78 | a user whose labels are in order passes the guards if and only if the node is free or already held by that user; so another holder's node is refused, and a node that is let through is referred to by nobody else |
| `SessionEdges.AllocationExactly` | crates/vine/session/src/lib.rs:452-472 | what the labels of an object mean to a user, case by case, and that another node is blamed before another user |
| `SessionEdges.GuardExactly` | crates/vine/rbac/src/session.rs:35-78 | the guards let a user through if and only if the user's labels name nobody else and the node's name neither another node nor another user |
| `SessionEdges.PerformedExactly` | crates/vine/session/src/lib.rs:282-380 | an action is one call, and two when it labels a box that is there; it succeeds if and only if they do and the object is there |
| `SessionEdges.CreatedExactly` | crates/vine/session/src/lib.rs:144-154 | a login stops at one of its stages: node, namespace made, namespace, user, box, in this order; it succeeds if and only if no call failed and node and user are there |
| `SessionEdges.DeletedExactly` | crates/vine/session/src/lib.rs:157-167 | a logout stops at one of its stages: box, user, namespace made, namespace, node, in this order; it succeeds if and only if no call failed and node and user are there |
| `SessionEdges.FailedLoginLeaves` | crates/vine/session/src/lib.rs:70-88 | a failed login without rollback stays where it stopped; with one that succeeds the node is free and nothing refers to it |
| `SessionEdges.LoginExactly` | crates/vine/rbac/src/session.rs:20-200 | a guarded login comes to a stage of the login if the user passes, and else changes nothing |
| `SessionEdges.LogoutExactly` | crates/vine/rbac/src/session.rs:20-200 | a guarded logout comes to a stage of the logout if the user passes, and else changes nothing |
| `SessionEdges.ReapExactly` | crates/vine/session/src/lib.rs:91-141 | the reaper logs out exactly whoever is bound to a node that is not persistent and whose session is over |
| `SessionManagers.SessionManager.Login` | crates/vine/rbac/src/session.rs:20-200 | a guarded login |
| `SessionManagers.SessionManager.Logout` | crates/vine/rbac/src/session.rs:20-200 | a guarded logout |
| `SessionManagers.SessionManager.Reap` | crates/vine/session/src/lib.rs:91-141 | the automatic logout of a node that is bound, started, not persistent and no longer alive |
| `SessionSafety.AllocableIsFree` | crates/vine/session/src/lib.rs:452-472 | a node a user may allocate is held by that user or referred to by nobody |
| `SessionSafety.CreationKeepsLocked` | crates/vine/session/src/lib.rs:144-154 | a login keeps the lock wherever it stops |
| `SessionSafety.DeletionKeepsLocked` | crates/vine/session/src/lib.rs:157-167 | a logout keeps the lock wherever it stops; one that succeeds frees the node and leaves nothing bound to it |
| `SessionSafety.AlwaysLocked` | crates/vine/session/src/lib.rs:70-167 | after any sequence of logins, rollbacks, logouts and automatic logouts, each stopped anywhere, a user, namespace or box labelled as bound to a node by a user implies the node is labelled so |
| `SessionSafety.NoHandover` | crates/vine/session/src/lib.rs:452-472 | a bound node never passes to another user without being unbound first |
| `SessionSafety.LoginBinds` | crates/vine/session/src/lib.rs:144-154 | an accepted login leaves node, namespace, user and box bound to the node by the user |
| `SessionSafety.OneUserTwoNodes` | crates/vine/rbac/src/session.rs:35-43 | the lock is the node's: a run from the beginning, without failures, after which one user holds two nodes |
| `SessionSafety.AutologinKeepsLocked` | crates/vine/operator/src/ctx/user_box_binding.rs:155-179 | writing the user label for automatic login keeps the lock if and only if the node already carries that user or nothing is bound to it |
| `PrimaryKey.EncodeIsSubstitution` | crates/vine/api/src/user_auth.rs:73-82 | the four replacements in a row equal one substitution of characters |
| `PrimaryKey.EncodeExactly` | crates/vine/api/src/user_auth.rs:73-82 | texts are encoded character by character, four characters by their codes and every other one by itself |
| `PrimaryKey.KeyForms` | crates/vine/api/src/user_auth.rs:84-103 | the name comes before the address and the id, each after its own prefix |
| `PrimaryKey.DecodeEncode` | crates/vine/api/src/user_auth.rs:73-82 | the encoding can be read back |
| `PrimaryKey.KeyIdentifies` | crates/vine/api/src/user_auth.rs:84-103 | a key tells which of the three forms it has and the lower-case identity in it |
| `PrimaryKey.KeysAreUnique` | crates/vine/api/src/user_auth.rs:72-104 | two payloads have the same key if and only if they identify the same user in the same way, in lower case |
| `FoldingMachine.LazyVirtualMachine.GetLocalValueByName` | crates/kubegraph/vm/lazy/src/lib.rs:665-681 | the search finds the first instruction of the name, or registers a placeholder |
| `FoldingMachine.LazyVirtualMachine.ExecuteExpr` | crates/kubegraph/vm/lazy/src/lib.rs:683-872 | compiling an expression appends the instructions, and gives the operand, that `CompileExpr` says |
| `FoldingMachine.LazyVirtualMachine.ExecuteScript` | crates/kubegraph/vm/lazy/src/lib.rs:597-638 | compiling a script, one assignment after the other |
| `FoldingMachine.LazyVirtualMachine.CallCode` | crates/kubegraph/vm/lazy/src/lib.rs:109-163 | the loop over the instructions computes `Run`: stack, variables, and the columns written to the frame, or the failure |
| `FoldingTheorems.FoldUnaryMeans` | crates/kubegraph/api/src/vm.rs:686-724 | a folded unary operation is the machine's operation on features, numbers and slices, or its failure |
| `FoldingTheorems.FoldBinaryMeans` | crates/kubegraph/api/src/vm.rs:726-812 | a folded binary operation is the machine's operation, or its type or division failure; between two numbers it is the operation of the reals |
| `FoldingTheorems.FoldFunctionMeans` | crates/kubegraph/api/src/vm.rs:814-853 | a folded call with arguments is the machine's call, which aggregates a column next to numbers and fails on two columns |
| `FoldingTheorems.CompileCorrect` | crates/kubegraph/vm/lazy/src/lib.rs:683-698 | a compiled expression runs to the value the unfolded expression has, or fails alike; where compiling fails, evaluation fails |
| `FoldingTheorems.FoldingPreservesMeaning` | crates/kubegraph/api/src/vm.rs:664-677 | for every script that compiles, the run ends as the unfolded evaluation does, with the same variables, the same slices written to the same columns in the same order, or the same failure, if and only if it comes to no call without arguments; where compiling fails, evaluation fails |
| `FoldingTheorems.EmptyCallSlipsThrough` | crates/kubegraph/api/src/vm.rs:819-830 | the exception: an empty call is folded to an undefined number, which becomes the column of the assigned name, and nothing is written |
| `AssignmentTheorems.EvalIsSeen` | crates/kubegraph/api/src/frame/mod.rs:181-262 | evaluating with the machine's names, seen from the first frame, is ordinary evaluation with what these names show now |
| `AssignmentTheorems.FoldingIsOrdinary` | crates/kubegraph/vm/lazy/src/lib.rs:627-638 | a run that reads no stale name puts the contents of ordinary assignment into every column, or fails as ordinary assignment does |
| `AssignmentTheorems.OrdinaryExactly` | crates/kubegraph/vm/lazy/src/lib.rs:665-673 | after any script, every next expression has its ordinary meaning if and only if no name is stale: if what its first definition shows on the frame of the day is what it was assigned last |
| `AssignmentTheorems.FreshExactly` | crates/kubegraph/vm/lazy/src/lib.rs:665-673 | for scripts over columns alone, a run that succeeds writes the ordinary contents if and only if no expression reads a stale name |
| `AssignmentTheorems.ReassignmentIsIgnored` | crates/kubegraph/vm/lazy/src/lib.rs:665-673 | a second assignment of a number is not seen by readers |
| `AssignmentTheorems.WrittenColumnIsSeen` | crates/kubegraph/api/src/frame/mod.rs:181-262 | a column that was read and is then written shows its new contents, as it should |
| `AssignmentTheorems.ReusedSliceFollowsColumn` | crates/kubegraph/api/src/frame/mod.rs:181-262 | but a name computed from the column before follows it to its new contents |
| `AssignmentTheorems.StaleReadMayNotShow` | crates/kubegraph/api/src/vm.rs:726-812 | with constants a stale read need not show: a number minus itself is zero either way |
| `FoldingMeaning.ExtremeExactly` | crates/kubegraph/api/src/vm.rs:814-853 | the maximum or minimum of cells is one of the numbers among them, and no number is beyond it |
| `FoldingMeaning.NearestExactly` | crates/kubegraph/api/src/frame/mod.rs:485-491 | the integer a number is rounded to is the nearest of 64 bits, and of two the one farther from zero |
| `FoldingMeaning.NumbersShow` | crates/kubegraph/api/src/vm.rs:726-812 | between numbers the machine's table is the arithmetic and the order of the reals |
| `FoldingMeaning.BinaryShows` | crates/kubegraph/api/src/frame/mod.rs:380-430 | a binary operation computes, on numbers, truth values and columns, what the separate evaluator says, cell by cell, with numbers next to columns rounded |
| `FoldingMeaning.FunctionShows` | crates/kubegraph/api/src/frame/mod.rs:280-350 | a call computes its one argument, the extreme of its numbers, or the extreme of a column and numbers in every row, and fails on truth values and on two columns |
| `FoldingMeaning.DirectShows` | crates/kubegraph/vm/lazy/src/lib.rs:683-872 | the ordinary meaning of an expression, built from slices, computes on every frame what the separate evaluator says, or fails alike |
| `FoldingMeaning.EvalShows` | crates/kubegraph/vm/lazy/src/lib.rs:109-163 | in the middle of any script, stale names or not, the machine's value of an expression is what the separate evaluator computes on the frame of the day with the names as the machine holds them |
| `FoldingMeaning.FillingsShow` | crates/kubegraph/api/src/frame/mod.rs:231-262 | writing the columns of a run one after the other gives each the contents its history says over the first frame |
| `FoldingMeaning.FreshScriptsCompute` | crates/kubegraph/vm/lazy/src/lib.rs:109-163 | every script that reads no stale name and calls no function without arguments, compiled and run, puts into every column of every frame the cells that its separate evaluation gives, or fails where that fails |
| `FoldingMeaning.ConstantScriptsCompute` | crates/kubegraph/api/src/vm.rs:726-812 | in particular every script of constants writes its values in the arithmetic of the reals, or fails exactly where that meets a zero divisor or a clash of types |
| `FoldingMeaning.FiveMinusThree` | crates/kubegraph/api/src/vm.rs:979-984 | five minus three is compiled to two and written as two |

## Left out

- Model items given as strings, and references by `storage.get_by_field`, in `InputTemplate`: a foreign lookup.
- Custom resource definitions as models: only their translation into fields, which then take the modelled path.
- KissActors.Store.Spawn: the pod specification of the job and the node lists it is given are not modelled, only the labels and the bootstrap flag.
- Deletion of boxes, and removal of a finished join job before the monitor has seen it in the convergence theorem.
- Owner references of bindings: they follow from a second patch that may fail on its own.
- Model claims: their veto on deleting a model is an answer from outside; updating and replacing claims is unimplemented.
- Quotas, roles and box reservations in a login: one answer from outside; resource quantities are not parsed.
- One node per user: the code does not enforce it (`OneUserTwoNodes`).
- Removal of nodes: a node that vanishes takes its lock with it.
- AssignmentTheorems.FoldingIsOrdinary: gives a sufficient condition only for scripts with constants, where a stale read may leave no trace (`StaleReadMayNotShow`); exact are `OrdinaryExactly`, for all next expressions, and `FreshExactly`, for scripts over columns.
- What the data frame library does beyond the cells of `FoldingMeaning`: its column types, its own integer arithmetic, and the filter that may be applied before a run.
- The graph machine's own loop, the market trader, the runners and the script grammar.
- Command line, terminal, wireless, shell, name server and collector programs: plumbing.
