# Verification of becloudless

Dafny models of the algorithms that becloudless relies on, with proofs of what they promise. `dafny verify dfyconfig.toml`
checks the whole project.

## What is modelled

**The schema mutations** of the base chart. A schema is a JSON value (`Json.dfy`); what it accepts is defined in `Schema.dfy`
after JSON Schema Validation draft-07 (sections 6.1 to 6.7), with regular expressions, formats, character counts and unnamed
keywords as parameters, so that each theorem holds for every meaning of them. Walkers are in `Walk.dfy` and `PathWalk.dfy`;
`SchemaNodes.dfy` says which nodes a schema has, and at which paths, without them.
The passes are `FlattenAllOf.dfy`, `Required.dfy`, `TemplatedStrings.dfy`, `Refs.dfy`, `ArraysToMaps.dfy`, `EnvMaps.dfy` and
`PortMaps.dfy`, each as methods that update a Go map keyword by keyword, tied to a function on values that the theorems are
about. `FlattenPrecedence.dfy` says what a flattened node has under each name and keyword. `RequiredTree.dfy` has the tree of
names that is collected and the check it stands for, `RequiredNames.dfy` says which names those are. `ArrayValues.dfy` follows values
through a conversion and back with the schema at hand, `ArrayReading.dfy` does so as the template does, with the reported paths
only, `Conversions.dfy` runs the three conversions one after the other, and `Agreement.dfy` compares nodes keyword by keyword.
`RequiredExamples.dfy` and `ArrayExamples.dfy` hold schemas and values for which a condition fails, and a theorem with it.

**The block-device graph** (`BlockDevices.dfy`): rows of lsblk, the search for a mount point and the related chain.
`DeviceLevels.dfy` compares a queue of devices with the levels below a device.

**The chart order of the CI** (`Charts.dfy`): selection to a fixpoint, then depth-first order.

**Helm values** (`ValuesAlgebra.dfy`, `Values.dfy`, `MergedValues.dfy`, `HelmValues.dfy`): the algebra of merging, and the deep
copy, the merge in place and the fold of a release on the heap, where maps are objects. A `Seen` value records what stood on
the heap and in which object, so that contracts can say what changed, what did not, and what is shared.

**Text** (`Strings.dfy`): environment substitution (`Substitution.dfy`), quoting against a POSIX shell
(`ShellQuote.dfy`, sections 2.2 and 2.3 of the POSIX.1-2017 Shell Command Language), commits of a branch (`GitCommits.dfy`), the
bytes of a passphrase (`Passphrase.dfy`) and the next version (`Version.dfy`).

Go maps are ranged over by picking any remaining key, so a contract of such a method holds for every iteration order.

## Where the code and its comments differ

- `TemplatedStrings`: a plain value that breaks the validation is said to stay rejected. A node of type string or null with an
  enum accepts null once relaxed (`TemplatedStrings.NullableListGainsNull`).
- `Refs`, `relaxObject`: the type of a map of entries is overwritten, so a map that also took null takes it no more
  (`Refs.RelaxedMapAccepts`). The last node found for a path is said to be the outermost; a property and the entries of one node
  may share a path, and then it holds nothing of the other (`Refs.SharedPathHasNoOutermost`).
- `ArraysToMaps`: the paths are said to reverse the conversion. They do not at the root, in an array of arrays, inside an array
  left alone, for maps of arrays, beside names with dots and where a type admits objects too (`ArrayExamples.dfy`); exactly
  which values come back is `ArrayReading.ReadsBackExactly`.
- `Required`: the check on entries is one for maps and lists, so items beside a type that allows objects are asked of the
  entries of an object too (`RequiredExamples.UntypedItemsAskMore`), and likewise the other way round; an entry with a tree of
  its own is skipped by `each`, so a merge may ask for less (`RequiredTree.MergeKeepsExactly`,
  `RequiredExamples.BranchMayAskLess`); an empty name is deleted and asked for nowhere (`RequiredExamples.EmptyNameIsDropped`);
  what a branch of a oneOf or anyOf asks below is checked whichever branch applies (`RequiredExamples.AlternativeAsksMore`).
- `GetCommitsInBranch`: meant to be `git log main..branch`, it stops at the first commit of main
  (`GitCommits.ExactWhenMainComesLast`, `GitCommits.MergeMayHideCommits`). A file changed several times is reported with its
  oldest change (`GitCommits.UniteChanges`).
- `GenerateIncrementalVersion`: a tag with the largest 64-bit number makes the count begin again
  (`Version.NextExceedsAll`, `Version.ExhaustedMayRepeat`).
- `readMultilineSecret`: a carriage return counts as a newline, so lines that end in both are followed by an empty line, and
  reading stops after the first of them (`Passphrase.CarriageReturnEndsTheSecret`, `Passphrase.PromptKeepsPassphrase`).

## Model

| member | source | states |
|---|---|---|
| `Walk.WalkSchemaNodes` | kube/charts/base/templates/resources/mutations/helpers.go:8-34 | the in-place walk, property maps ranged over in any order, rewrites every nested node after those below it; the result is the same for every order |
| `Walk.WalkIdentity` | kube/charts/base/templates/resources/mutations/helpers.go:3-7 | a walk whose visits change no reachable node leaves the whole schema as it is |
| `SchemaNodes.EverywhereIsEachNode` | kube/charts/base/templates/resources/mutations/helpers.go:3-34 | what the theorems say of every visited node they say of every node of the schema, told without the walk: under properties, additionalProperties, items and the branches of the three combinators |
| `SchemaTypes.SchemaTypeIncludes` | kube/charts/base/templates/resources/mutations/helpers.go:100-112 | true exactly when the type is the wanted name or a list holding it |
| `SchemaTypes.ReplaceSchemaType` | kube/charts/base/templates/resources/mutations/helpers.go:117-136 | every occurrence of the name is replaced, one name or a list of them, the rest kept in place |
| `SchemaTypes.ReplacedTypeAccepts` | kube/charts/base/templates/resources/mutations/helpers.go:114-136 | with arrays renamed to objects, the type admits exactly the non-arrays it admitted, and objects where it admitted arrays |
| `FlattenAllOf.FlattenAllOfNode` | kube/charts/base/templates/resources/mutations/flattenAllOf/flattenAllOf.go:27-40 | the visit removes a non-empty allOf and merges its branches in order, in place |
| `FlattenAllOf.MergeAllOfBranch` | kube/charts/base/templates/resources/mutations/flattenAllOf/flattenAllOf.go:45-84 | the whole new node: properties of the node win, names of required are united without repetition, listed keywords are copied where missing |
| `FlattenAllOf.Mutate` | kube/charts/base/templates/resources/mutations/flattenAllOf/flattenAllOf.go:22-25 | the mutation is the post-order rewriting of every node |
| `FlattenPrecedence.OwnPropertyStays` | kube/charts/base/templates/resources/mutations/flattenAllOf/flattenAllOf.go:46-58 | a property that a node with branches has keeps its schema when the branches are merged in |
| `FlattenPrecedence.FirstPropertyIsTaken` | kube/charts/base/templates/resources/mutations/flattenAllOf/flattenAllOf.go:46-58 | one it lacks gets the schema of the first branch that has it |
| `FlattenPrecedence.NoPropertyIsMade` | kube/charts/base/templates/resources/mutations/flattenAllOf/flattenAllOf.go:46-58 | and one that no branch has either is not there |
| `FlattenPrecedence.OwnKeywordStays` | kube/charts/base/templates/resources/mutations/flattenAllOf/flattenAllOf.go:76-83 | any other keyword of the node but allOf stays as it is |
| `FlattenPrecedence.FirstKeywordIsTaken` | kube/charts/base/templates/resources/mutations/flattenAllOf/flattenAllOf.go:76-83 | one of the eleven copied keywords that it lacks is that of the first branch that has it |
| `FlattenPrecedence.NoKeywordIsMade` | kube/charts/base/templates/resources/mutations/flattenAllOf/flattenAllOf.go:76-83 | no other keyword is taken from a branch |
| `FlattenPrecedence.FlattenedRequired` | kube/charts/base/templates/resources/mutations/flattenAllOf/flattenAllOf.go:60-74 | the names asked for are those of the node and then of the branches, each where it is first mentioned; without lists in the branches that of the node stays |
| `FlattenAllOf.FlattenLeavesNoBranch` | kube/charts/base/templates/resources/mutations/flattenAllOf/flattenAllOf.go:9-44 | after flattening no reachable node has a non-empty allOf, for every schema |
| `FlattenAllOf.FlattenIdempotent` | kube/charts/base/templates/resources/mutations/flattenAllOf/flattenAllOf.go:22-40 | flattening twice is flattening once |
| `FlattenAllOf.FlattenAccepts` | kube/charts/base/templates/resources/mutations/flattenAllOf/flattenAllOf.go:22-84 | every value the schema accepts is accepted by the flattened schema, at every depth, when the merges below a oneOf lose nothing and no merge copies additionalProperties away from its patterns |
| `FlattenAllOf.MergeBranchExact` | kube/charts/base/templates/resources/mutations/flattenAllOf/flattenAllOf.go:45-84 | a merge that drops no keyword and lets none change the meaning of another accepts exactly what node and branch both accept |
| `FlattenAllOf.FlattenExact` | kube/charts/base/templates/resources/mutations/flattenAllOf/flattenAllOf.go:22-84 | a schema all of whose merges are such accepts exactly the same values once flattened |
| `FlattenAllOf.FlatIsLossless` | kube/charts/base/templates/resources/mutations/flattenAllOf/flattenAllOf.go:27-40 | a schema without branches is among those that lose nothing |
| `FlattenAllOf.OneOfMayLoseValues` | kube/charts/base/templates/resources/mutations/flattenAllOf/flattenAllOf.go:27-40 | the condition on oneOf is needed: a schema that accepts every value and, flattened, none |
| `FlattenAllOf.PatternsMayLoseValues` | kube/charts/base/templates/resources/mutations/flattenAllOf/flattenAllOf.go:76-83 | the condition on patternProperties is needed: additionalProperties copied without them loses a value |
| `Required.CollectInPlace` | kube/charts/base/templates/resources/mutations/required/Required.go:120-176 | collecting deletes the required lists from the map in place and returns the tree, for every order of the properties |
| `RequiredTree.MergeTrees` | kube/charts/base/templates/resources/mutations/required/Required.go:50-76 | the merge of two trees, name by name and each into each |
| `RequiredTree.ImpliesIs` | kube/charts/base/templates/resources/mutations/required/_required.tpl:18-46 | that whatever passes one tree passes another is read off the two trees: their names, the trees of the entries, and which entries take another tree |
| `RequiredTree.MergeKeepsExactly` | kube/charts/base/templates/resources/mutations/required/Required.go:50-76 | a merge keeps both checks exactly when, wherever one tree has a tree for an entry that the other checks by each, that tree implies this each |
| `RequiredTree.CheckMerged` | kube/charts/base/templates/resources/mutations/required/Required.go:50-76 | what passes two trees passes their merge, always |
| `Required.Mutate` | kube/charts/base/templates/resources/mutations/required/Required.go:111-118 | the schema is left without the hoisted lists; a tree is reported exactly when it is not empty |
| `RequiredNames.CollectedNames` | kube/charts/base/templates/resources/mutations/required/Required.go:120-176 | which names the root of the tree lists: those of the node unless it is an alternative, those of the branches of allOf, and of alternatives only what their own allOf brings |
| `RequiredNames.CollectIsTidy` | kube/charts/base/templates/resources/mutations/required/Required.go:120-176 | no name twice in a list, and no tree that asks for nothing, at any depth |
| `RequiredNames.StrippedNodeIs` | kube/charts/base/templates/resources/mutations/required/Required.go:120-176 | of a node only the list goes, and of an alternative nothing; property names and numbers of branches stay |
| `Required.StrippedAgrees` | kube/charts/base/templates/resources/mutations/required/Required.go:15-37 | under every combinator, on values that pass a tree covering the schema, what is left accepts exactly what the schema accepted |
| `Required.ImpliedCovers` | kube/charts/base/templates/resources/mutations/required/Required.go:123-176 | a tree that implies another asks for every deleted name that one asks for |
| `Required.CollectCovers` | kube/charts/base/templates/resources/mutations/required/Required.go:120-176 | the collected tree asks for every name that was deleted, when each merge on the way keeps both checks and no name is empty |
| `Required.CoversMerged` | kube/charts/base/templates/resources/mutations/required/Required.go:50-76 | a merge that keeps both checks asks for all that either tree asked for |
| `Required.AcceptedChecks` | kube/charts/base/templates/resources/mutations/required/Required.go:123-176 | a value the schema accepts passes the collected tree, when each entry check belongs to one kind of entries |
| `Required.HoistSplits` | kube/charts/base/templates/resources/mutations/required/_required.tpl:18-46 | a value is accepted exactly when what is left accepts it and the tree check passes |
| `Required.SimpleIsSafe` | kube/charts/base/templates/resources/mutations/required/Required.go:150-161 | schemas without combinators and without two kinds of entries meet the condition of CollectCovers |
| `Required.SecondRun` | kube/charts/base/templates/resources/mutations/required/Required.go:111-176 | a second run reports nothing and changes nothing, for every schema |
| `Required.StripLeavesNone` | kube/charts/base/templates/resources/mutations/required/Required.go:120-134 | after a run only branches of a oneOf or anyOf keep a required list of their own, at any depth |
| `RequiredExamples.UntypedItemsAskMore` | kube/charts/base/templates/resources/mutations/required/_required.tpl:34-40 | items beside a type that allows objects: a value the schema accepts fails the check |
| `RequiredExamples.UntypedEntriesAskMore` | kube/charts/base/templates/resources/mutations/required/_required.tpl:41-45 | additionalProperties beside a type that allows arrays: likewise |
| `RequiredExamples.ListedNameAsksMore` | kube/charts/base/templates/resources/mutations/required/_required.tpl:34-40 | a listed property without a tree of its own is checked like the entries that are not listed |
| `RequiredExamples.PatternNameAsksMore` | kube/charts/base/templates/resources/mutations/required/_required.tpl:34-40 | and so is an entry that a pattern takes out of additionalProperties |
| `RequiredExamples.AlternativeAsksMore` | kube/charts/base/templates/resources/mutations/required/Required.go:162-174 | what one branch of a oneOf or anyOf asks below is checked though another branch applies |
| `RequiredExamples.EmptyNameIsDropped` | kube/charts/base/templates/resources/mutations/required/Required.go:126-133 | an empty name in a list is deleted and asked for nowhere: a rejected value gets through |
| `RequiredExamples.BranchMayAskLess` | kube/charts/base/templates/resources/mutations/required/Required.go:162-174 | a merge of a branch that loses a check, under each of the three combinators: a rejected value gets through |
| `RequiredExamples.ItemsMayAskLess` | kube/charts/base/templates/resources/mutations/required/Required.go:150-161 | the same where additionalProperties and items share one each |
| `TemplatedStrings.RelaxStringNode` | kube/charts/base/templates/resources/mutations/templatedStrings/templatedStrings.go:38-63 | the visit rewrites the node in place, or leaves it; what it becomes is said by RelaxedNodeIs and OtherNodeStays |
| `TemplatedStrings.Mutate` | kube/charts/base/templates/resources/mutations/templatedStrings/templatedStrings.go:37-65 | the mutation is the post-order rewriting of every node |
| `TemplatedStrings.RelaxedNodeIs` | kube/charts/base/templates/resources/mutations/templatedStrings/templatedStrings.go:38-63 | a text node without combinators that has one of the six validation keywords: the six move under anyOf, beside the pattern of a template, the rest stays |
| `TemplatedStrings.OtherNodeStays` | kube/charts/base/templates/resources/mutations/templatedStrings/templatedStrings.go:38-63 | every other node stays as it is |
| `TemplatedStrings.TemplateIsAccepted` | kube/charts/base/templates/resources/mutations/templatedStrings/templatedStrings.go:16-34 | what the mutation is for: a text node accepts every text that holds a template action, whatever it asks by the six keywords |
| `TemplatedStrings.RelaxIdempotent` | kube/charts/base/templates/resources/mutations/templatedStrings/templatedStrings.go:37-65 | relaxing twice is relaxing once |
| `TemplatedStrings.RelaxedNodeAccepts` | kube/charts/base/templates/resources/mutations/templatedStrings/templatedStrings.go:16-34 | a relaxed node accepts exactly what its other keywords accept and the node accepted, or is no text, or holds a template action |
| `TemplatedStrings.RelaxIsConservative` | kube/charts/base/templates/resources/mutations/templatedStrings/templatedStrings.go:30-34 | values without template actions are accepted after exactly when before, at any depth and under every combinator, when each relaxed node that lists values lists all of them its type admits that are no texts |
| `TemplatedStrings.RelaxIsConservativeExactly` | kube/charts/base/templates/resources/mutations/templatedStrings/templatedStrings.go:30-34 | for a node of a type, validation and annotations, that condition is exact |
| `TemplatedStrings.NullableListGainsNull` | kube/charts/base/templates/resources/mutations/templatedStrings/templatedStrings.go:30-34 | a nullable text with an enum that does not list null gains it |
| `PathWalk.WalkSchemaNodesWithPath` | kube/charts/base/templates/resources/mutations/helpers.go:45-75 | for every order the properties are ranged over in, the visitor meets at each path exactly the nodes of that path, as rewritten below; when no name holds a dot or is empty, in one order too |
| `PathWalk.VisitsInOrder` | kube/charts/base/templates/resources/mutations/helpers.go:45-75 | that order: below properties, additionalProperties, items, oneOf, anyOf and allOf, one after the other, and the node last |
| `SchemaNodes.VisitedAreTheNodes` | kube/charts/base/templates/resources/mutations/helpers.go:36-75 | the nodes met at a path are those the schema has there, told without the walk, each rewritten below |
| `PathWalk.OneNameLeads` | kube/charts/base/templates/resources/mutations/helpers.go:36-44 | a dot-free name is read off every path below it |
| `Refs.FoundAreNodes` | kube/charts/base/templates/resources/mutations/refs/refs.go:59-67 | what is found for a path are the nodes there with a type, properties, entries or items |
| `Refs.OneSourceHasOutermost` | kube/charts/base/templates/resources/mutations/refs/refs.go:59-67 | the last node found for a path holds all the others, when what is found comes from one place below each node on the way: not from a property and the entries, nor from two branches |
| `Refs.LastFoundIsOutermost` | kube/charts/base/templates/resources/mutations/refs/refs.go:59-91 | that condition is exact, unless two of the nodes found read the same |
| `Refs.OneWayHasOneSource` | kube/charts/base/templates/resources/mutations/refs/refs.go:59-67 | it is met for every path of a schema without combinators whose nodes have entries of one kind |
| `Refs.SharedPathHasNoOutermost` | kube/charts/base/templates/resources/mutations/refs/refs.go:59-67 | a schema and a path for which neither of the two nodes found holds the other |
| `Refs.Relax` | kube/charts/base/templates/resources/mutations/refs/refs.go:133-141 | the node is emptied and refilled with its description and the two alternatives, a reference or what the node was |
| `Refs.RelaxObjectNode` | kube/charts/base/templates/resources/mutations/refs/refs.go:143-158 | the three cases: an array of one schema for its items, a map of entries, anything else; the whole new node of each |
| `Refs.RelaxedAccepts` | kube/charts/base/templates/resources/mutations/refs/refs.go:133-141 | a relaxed node accepts exactly references and what it accepted |
| `Refs.RelaxedListAccepts` | kube/charts/base/templates/resources/mutations/refs/refs.go:146-149 | an array kept as is accepts a reference for each item, and is otherwise judged as before |
| `Refs.RelaxedMapAccepts` | kube/charts/base/templates/resources/mutations/refs/refs.go:143-158 | a map of entries becomes a map or a list: exactly the objects each of whose entries is a reference or was accepted, and the lists of references, as far as the rest of the node accepts them |
| `ArraysToMaps.ConvertArrayNodeToMap` | kube/charts/base/templates/resources/mutations/arraysToMaps/arraysToMaps.go:66-84 | the whole new node after the conversion, and when it happens |
| `ArraysToMaps.Mutate` | kube/charts/base/templates/resources/mutations/arraysToMaps/arraysToMaps.go:31-64 | nothing when disabled; else the converted schema, and exactly the paths, not ignored, where the schema has a node whose type admits arrays and which has one schema for its items |
| `ArraysToMaps.VisitedBecomesMap` | kube/charts/base/templates/resources/mutations/arraysToMaps/arraysToMaps.go:66-84 | what such a node becomes: its items are the entries, the type takes objects for arrays, the six array keywords are gone, all else stays |
| `ArraysToMaps.NoArrayIsLeft` | kube/charts/base/templates/resources/mutations/arraysToMaps/arraysToMaps.go:44-84 | outside the ignored paths no node of the converted schema has a type that admits arrays and one schema for its items |
| `ArrayValues.EncodedIsAccepted` | kube/charts/base/templates/resources/mutations/arraysToMaps/arraysToMaps.go:66-84 | an accepted value, its arrays keyed by distinct ordered ids at the converted nodes, is accepted by the converted schema |
| `ArrayReading.ReadsBackExactly` | kube/charts/base/templates/resources/mutations/arraysToMaps/_mapsToArrays.tpl:12-51 | for every schema, value and list of paths: the template, going by the paths, reads the keyed value back as it was exactly when each array of the value lies at a listed path behind a name, and no object does |
| `ArrayReading.ReportedIsConverted` | kube/charts/base/templates/resources/mutations/arraysToMaps/arraysToMaps.go:19-21 | in a schema without combinators, the reported paths are exactly those that lead to a converted node through properties, entries and items |
| `ArrayReading.ReadsAsRestored` | kube/charts/base/templates/resources/mutations/arraysToMaps/_mapsToArrays.tpl:12-51 | where the paths tell the converted nodes apart, reading by the paths is restoring by the schema, for any value |
| `ArrayReading.RoundTrip` | kube/charts/base/templates/resources/mutations/arraysToMaps/arraysToMaps.go:19-21 | then each accepted value, keyed and read with the reported paths, comes back as it was |
| `ArrayReading.ReadIsAccepted` | kube/charts/base/templates/resources/mutations/arraysToMaps/_mapsToArrays.tpl:12-51 | and every value the converted schema accepts is read back as one that the schema accepts, the dropped counts aside |
| `ArrayExamples.RootStaysMap` | kube/charts/base/templates/resources/mutations/arraysToMaps/_mapsToArrays.tpl:18 | an array at the root is not read back |
| `ArrayExamples.InnerListStaysMap` | kube/charts/base/templates/resources/mutations/arraysToMaps/_mapsToArrays.tpl:20-23 | nor is an array in an array |
| `ArrayExamples.ListInKeptListStaysMap` | kube/charts/base/templates/resources/mutations/arraysToMaps/_mapsToArrays.tpl:17-28 | nor one inside an array that is left alone, since lists are not entered |
| `ArrayExamples.MapOfListsTurns` | kube/charts/base/templates/resources/mutations/arraysToMaps/_mapsToArrays.tpl:18-24 | a map of arrays becomes a list itself |
| `ArrayExamples.DottedNameTurns` | kube/charts/base/templates/resources/mutations/arraysToMaps/_mapsToArrays.tpl:40-43 | an object under a name with a dot becomes a list when the names read like a reported path |
| `ArrayExamples.MixedTypeTurns` | kube/charts/base/templates/resources/mutations/arraysToMaps/_mapsToArrays.tpl:18-24 | an object becomes a list where the type admits both |
| `EnvMaps.ConvertEnvNodeToMap` | kube/charts/base/templates/resources/mutations/envMaps/envMaps.go:55-92 | the whole new node after the conversion, and when it happens |
| `EnvMaps.VisitedBecomesVariables` | kube/charts/base/templates/resources/mutations/envMaps/envMaps.go:55-92 | what a node of variables at an env path becomes: a map of entries, the type takes objects for arrays, the six array keywords are gone, all else stays |
| `EnvMaps.EntryAccepts` | kube/charts/base/templates/resources/mutations/envMaps/envMaps.go:12-25 | an entry is accepted exactly when it is a text, a number, a boolean, or what valueFrom accepts |
| `EnvMaps.Mutate` | kube/charts/base/templates/resources/mutations/envMaps/envMaps.go:32-53 | the converted schema, and exactly the paths that are env or end in .env where the schema has an array of variables with name, value and valueFrom |
| `PortMaps.ConvertPortNodeToMap` | kube/charts/base/templates/resources/mutations/portMaps/portMaps.go:55-89 | the whole new node after the conversion, and when it happens |
| `PortMaps.DeleteName` | kube/charts/base/templates/resources/mutations/portMaps/portMaps.go:76-78 | the names of required without the name of the port, in order |
| `PortMaps.VisitedBecomesPorts` | kube/charts/base/templates/resources/mutations/portMaps/portMaps.go:55-89 | what a node of named ports at a ports path becomes: its entries are the ports without their name, the type takes objects for arrays, the six array keywords are gone, all else stays |
| `PortMaps.EntryIsUnnamed` | kube/charts/base/templates/resources/mutations/portMaps/portMaps.go:68-78 | a port without its name: the property goes, and the name in required, all else stays |
| `PortMaps.EntryAccepts` | kube/charts/base/templates/resources/mutations/portMaps/portMaps.go:12-31 | a port under its name is accepted exactly when the port with that name in it was |
| `PortMaps.Mutate` | kube/charts/base/templates/resources/mutations/portMaps/portMaps.go:32-53 | the converted schema, and exactly the paths that are ports or end in .ports where the schema has an array of ports with a name |
| `Conversions.ConvertedOnce` | kube/charts/base/templates/resources/mutations/arraysToMaps/arraysToMaps.go:19-21 | in the order environments, ports, arrays no visited node is converted that an earlier pass, or the pass itself, has converted, for every schema and every order of the properties |
| `Conversions.MarkingIsThreePasses` | kube/charts/base/templates/resources/mutations/portMaps/portMaps.go:26-31 | following nodes by a mark changes nothing about what the three passes do |
| `Conversions.NoneLeftAfterAll` | kube/charts/base/templates/resources/mutations/envMaps/envMaps.go:22-25 | after the three passes, outside the ignored paths, no node of the schema has a type that admits arrays and one schema for its items |
| `BlockDevices.BlockDeviceGraph.constructor` | cli/pkg/cmd/nixos/hardware/disks/nixosHardwareDisks.go:218-238 | the index of the rows: the last row of each name, and the names under each parent in row order |
| `BlockDevices.LastRowCounts` | cli/pkg/cmd/nixos/hardware/disks/nixosHardwareDisks.go:233 | a device is known exactly when a row has its name, and has the last such row |
| `BlockDevices.ChildrenAreRows` | cli/pkg/cmd/nixos/hardware/disks/nixosHardwareDisks.go:235-237 | the children of a device are exactly the names of the rows that name it as parent |
| `BlockDevices.ChildrenInOrder` | cli/pkg/cmd/nixos/hardware/disks/nixosHardwareDisks.go:236 | and come in the order of those rows, one for each |
| `BlockDevices.RowsMakeOneRowEach` | cli/pkg/cmd/nixos/hardware/disks/nixosHardwareDisks.go:224-238 | rows of different devices, each parent among them, make a graph with one row per device |
| `BlockDevices.BlockDeviceGraph.DescendMountPoint` | cli/pkg/cmd/nixos/hardware/disks/nixosHardwareDisks.go:286-305 | ends on every graph; fails exactly when no reachable device is mounted; else gives the mount point of the first mounted device, in tree order, of the least level that has one |
| `BlockDevices.LevelIsDown` | cli/pkg/cmd/nixos/hardware/disks/nixosHardwareDisks.go:302 | level k, the children of the level before in order, has exactly the devices k steps down |
| `BlockDevices.FirstIsNearest` | cli/pkg/cmd/nixos/hardware/disks/nixosHardwareDisks.go:286-305 | so the device found is at least distance |
| `BlockDevices.BlockDeviceGraph.RelatedChain` | cli/pkg/cmd/nixos/hardware/disks/nixosHardwareDisks.go:307-341 | ends on every acyclic graph; lists, without repetition, exactly the known devices among itself, those above and those below: those above first, nearest first, then level by level those below, each where it is first met |
| `DeviceLevels.QueuedIsLevel` | cli/pkg/cmd/nixos/hardware/disks/nixosHardwareDisks.go:286-305 | a queue that does not expand a device twice has, of each level, the same devices first met in the same order |
| `BlockDevices.QueueShrinks` | cli/pkg/cmd/nixos/hardware/disks/nixosHardwareDisks.go:332-338 | the queue without account of what it met ends: each step takes one off the number of downward ways |
| `BlockDevices.UpIsDown` | cli/pkg/cmd/nixos/hardware/disks/nixosHardwareDisks.go:323-338 | with one row per device and a row per parent, going up is going down backwards |
| `BlockDevices.RelatedIsSymmetric` | cli/pkg/cmd/nixos/hardware/disks/nixosHardwareDisks.go:307-341 | then a device is in the chain of another exactly when that one is in its own, that is when one reaches the other |
| `BlockDevices.BlockDeviceGraph.PhysicalDeviceNames` | cli/pkg/cmd/nixos/hardware/disks/nixosHardwareDisks.go:343-353 | the names of the disks of a chain, in order |
| `BlockDevices.DisksInOrder` | cli/pkg/cmd/nixos/hardware/disks/nixosHardwareDisks.go:343-353 | exactly the disks, in the order of the chain |
| `Charts.Visits.Select` | cli/pkg/cmd/ci/ciChart.go:139-157 | the passes end with a closed set that holds the changed charts and only affected ones |
| `Charts.Visits.Visit` | cli/pkg/cmd/ci/ciChart.go:159-171 | a visit keeps the list free of repeats and each chart behind its selected dependencies, save those on a cycle with it |
| `Charts.Visits.AddLocalDependents` | cli/pkg/cmd/ci/ciChart.go:139-175 | the selected charts are exactly those that reach a changed one; the list holds those of the folder, and those a chart of the folder depends on, once each, dependencies first, and what an earlier chart of the folder needs before what only later ones do |
| `Charts.AffectedIsLeast` | cli/pkg/cmd/ci/ciChart.go:108-109 | every closed set that holds the changed charts holds all affected ones |
| `Charts.AcyclicIsInOrder` | cli/pkg/cmd/ci/ciChart.go:108-109 | without cycles each chart comes after all its selected dependencies |
| `Charts.AllAreListed` | cli/pkg/cmd/ci/ciChart.go:139-175 | when the changed charts are of the folder, the list holds the selection and nothing else |
| `ValuesAlgebra.FindInMerge` | cli/pkg/cmd/kube/kubeBootstrap.go:501-513 | lookup in a merge by any path: the override wins, two maps merge, a non-map in the override hides what is below, the rest stays |
| `ValuesAlgebra.MergeTwiceIsOnce` | cli/pkg/cmd/kube/kubeBootstrap.go:501-513 | merging the same override again changes nothing |
| `ValuesAlgebra.CoveredLeavesNothing` | cli/pkg/cmd/kube/kubeBootstrap.go:501-513 | a merge gives the override itself exactly when the override covers the base |
| `ValuesAlgebra.Associative` | cli/pkg/cmd/kube/kubeBootstrap.go:501-513 | merging is associative exactly when, wherever a non-map comes between two maps, the last covers the first |
| `ValuesAlgebra.LastSpeakerWins` | cli/pkg/cmd/kube/kubeBootstrap.go:466-467 | what the last value that speaks of a path has there is what all together have there |
| `Values.DeepCopyMap` | cli/pkg/cmd/kube/kubeBootstrap.go:443-450 | the copy has the same content, in maps of its own, none met twice; nothing there was changes |
| `Values.DeepCopyValue` | cli/pkg/cmd/kube/kubeBootstrap.go:452-465 | the same for any value |
| `Values.NestedValue` | cli/pkg/cmd/kube/kubeBootstrap.go:532-542 | what stands at the path, nil when there is nothing |
| `MergedValues.MergeValues` | cli/pkg/cmd/kube/kubeBootstrap.go:502-513 | merging in place changes maps of the base only, and leaves the merge of the two contents, in maps of either |
| `MergedValues.SharedMapChangesTwice` | cli/pkg/cmd/kube/kubeBootstrap.go:502-513 | a base with a map in two places: the result is the merge of the contents exactly when there is nothing to change in that map |
| `MergedValues.MergeCopies` | cli/pkg/cmd/kube/kubeBootstrap.go:266 | merging deep copies leaves both inputs as they were and shares no map with them |
| `HelmValues.HelmReleaseValues` | cli/pkg/cmd/kube/kubeBootstrap.go:468-499 | the merge of the config maps in order and of the inline values; the first source that fails decides the error; the inline values stay as they were |
| `Substitution.SubstituteEnvInStructure` | cli/pkg/cmd/kube/kubeBootstrapOld.go:536-565 | the structure keeps its shape, and each text has the variables filled in one after the other, in some order |
| `Substitution.AnyOrderFills` | cli/pkg/cmd/kube/kubeBootstrapOld.go:550-561 | in a template every order gives the text with all known holes filled at once |
| `Substitution.StructureIsFilled` | cli/pkg/cmd/kube/kubeBootstrapOld.go:536-565 | so the result for a whole structure is one, whatever orders the maps were gone through in |
| `Substitution.DollarShowsTheOrder` | cli/pkg/cmd/kube/kubeBootstrapOld.go:552-560 | the condition on the values is needed: with a dollar sign in one, two orders differ |
| `ShellQuote.ShellQuoteArgs` | cli/pkg/utils/shell.go:5-11 | every argument quoted, in place |
| `ShellQuote.CommandLineSplits` | cli/pkg/utils/shell.go:5-11 | a POSIX shell splits the command line into the words of the head and exactly the arguments, whatever is in them |
| `ShellQuote.SshCommand` | cli/pkg/system/runner/sshRunner.go:137 | the line handed to the session, and what the remote shell makes of it |
| `ShellQuote.NixShellCommand` | cli/pkg/system/runner/nixShellRunner.go:25-33 | the arguments handed to the parent runner: the experimental features, -p before each package in order, and the line behind --run |
| `ShellQuote.ArgumentsSurvive` | cli/pkg/system/runner/nixShellRunner.go:25-33 | through any number of nested nix-shells, here or over ssh, the program gets the head and exactly the arguments, for every shell that splits command lines so |
| `ShellQuote.PosixArgumentsSurvive` | cli/pkg/system/runner/sshRunner.go:137 | as POSIX shells do |
| `GitCommits.GetCommitsInBranch` | cli/pkg/git/changes.go:170-247 | each error and its condition, and else the commits of the log before the first one that a main reference gave |
| `GitCommits.MainReachable` | cli/pkg/git/changes.go:177-216 | exactly the commits that the logs of the main references gave, up to their errors |
| `GitCommits.CommitsArePrefix` | cli/pkg/git/changes.go:218-246 | always a prefix of the log, without repetition, and nothing that main reaches |
| `GitCommits.ExactWhenMainComesLast` | cli/pkg/git/changes.go:165-168 | the answer is the commits of the branch that main does not reach exactly when main comes last in the log |
| `GitCommits.LinearIsExact` | cli/pkg/git/changes.go:165-168 | which is so on every linear history |
| `GitCommits.MergeMayHideCommits` | cli/pkg/git/changes.go:236-239 | and not after every merge |
| `GitCommits.UniteChanges` | cli/pkg/git/changes.go:84-93 | fails exactly when a commit has no changes to tell; else a file is listed exactly when a commit touches it, with the change of the last such commit |
| `GitCommits.GetFilesChangedInCurrentBranch` | cli/pkg/git/changes.go:57-94 | on a main branch the changes of the last commit, or the error that it has none; else those of the commits of the branch, which on a linear history with whole logs are the files that a commit reachable from the branch and not from main touches |
| `GitCommits.FilesOfBranch` | cli/pkg/git/changes.go:84-93 | on a linear history the listed files are exactly those that the commits of the branch touch |
| `Passphrase.TrimLeadingLineWhitespace` | cli/pkg/nixos/backupMount.go:218-224 | overwriting line after line removes exactly the blanks at the start of each line |
| `Passphrase.TrimmingFirst` | cli/pkg/cmd/nixos/backup/multilineSecret.go:65-68 | trimming first, as the prompt does, gives the same bytes to hash, for every text |
| `Passphrase.IndentingKeepsPassphrase` | cli/pkg/nixos/backupMount.go:97-108 | indenting the lines of any text by any blanks leaves the bytes to hash as they were |
| `Passphrase.DedentUndoesIndenting` | cli/pkg/nixos/backupMount.go:213-217 | dedenting an indented text gives the very text back exactly when none of its lines began with a blank |
| `Passphrase.ReadMultilineSecret` | cli/pkg/cmd/nixos/backup/multilineSecret.go:37-68 | what is typed up to the first empty line, trimmed and with one newline; hashed like what was typed |
| `Passphrase.CarriageReturnEndsTheSecret` | cli/pkg/cmd/nixos/backup/multilineSecret.go:48-60 | a line that ends in a carriage return and a newline is the last one read |
| `Passphrase.TypedIsAll` | cli/pkg/cmd/nixos/backup/multilineSecret.go:37-63 | everything typed is read, carriage returns as newlines, exactly when no line but the first is empty |
| `Passphrase.PromptKeepsPassphrase` | cli/pkg/cmd/nixos/backup/multilineSecret.go:37-68 | the prompt keeps the bytes to hash exactly when only spaces follow the first empty line |
| `Passphrase.PastedKey` | cli/pkg/cmd/nixos/backup/multilineSecret.go:15-25 | a key pasted with any indentation and either line end hashes like the key itself, exactly then |
| `Version.AtoiOfPrint` | cli/pkg/version/version.go:52-64 | parsing undoes printing for every 64-bit number |
| `Version.CountTags` | cli/pkg/version/version.go:46-60 | the count after one tag after the other, with the wrap-around of a 64-bit number |
| `Version.GenerateIncrementalVersion` | cli/pkg/version/version.go:33-65 | the text of the version, major, date and number; its tag is new unless a tag has the largest number there is |
| `Version.NextExceedsAll` | cli/pkg/version/version.go:31-32 | the last number exceeds those of all tags exactly when none of them is the largest there is |
| `Version.NextNumberIsLeast` | cli/pkg/version/version.go:31-32 | and is the least such number, from 0 on |
| `Version.ExhaustedMayRepeat` | cli/pkg/version/version.go:52-58 | otherwise the count begins again, and may give a tag that is there |

## Left out

- Required.HoistSplits: the conditions on the schema are sufficient. For trees the condition is exact (MergeKeepsExactly); for schemas an exact one would have to decide which values the other keywords of a node rule out. Each kind of condition has a schema and a value in RequiredExamples for which it fails and the theorem with it.
- FlattenAllOf.FlattenAccepts: likewise sufficient conditions, with OneOfMayLoseValues and PatternsMayLoseValues for the two of them.
- TemplatedStrings.RelaxIsConservative: the condition is exact for nodes that have a type, validation and annotations (RelaxIsConservativeExactly); other keywords of a node may rule out what its type admits.
- Refs.LastFoundIsOutermost: two nodes that read the same cannot be told apart by their content, so the converse asks that none of the nodes found does.
- PathWalk.WalkSchemaNodesWithPath: the order of the visits at one path is stated for names without dots; with a dot two properties may share a path, and the order is that of the Go map.
- ArrayReading.RoundTrip: the condition on the schema is sufficient; whether a value reaches a node that breaks it depends on the other keywords. Which values come back is exact in ReadsBackExactly, and each part of the condition has an example in ArrayExamples.
- ArrayReading.ReadIsAccepted: the same condition; and arrays that stay arrays may not ask for distinct items, since two maps of different ids may be read back as equal lists.
- ArrayValues.EncodedIsAccepted: schemas with combinators or patternProperties are outside, and nodes that ask for names or entries beside a converted array; an enum or const that lists arrays or objects is outside, since the mutation does not rewrite it.
- MergedValues.MergeValues: the base holds no map twice and shares none with the override, as parsed or copied values do; otherwise the merge in place is not that of the contents (SharedMapChangesTwice).
- ShellQuote.CommandLineSplits: lines with operators, expansions or unfinished quotes have no splitting in the model, so a head with such is not covered.
- BlockDevices.RelatedIsSymmetric: needs one row per device; a RAID member listed under two parents keeps its last row.
- GitCommits.CommitsArePrefix: a log lists what is reachable, each commit behind a child; the order among those is left open, so is what the git library does with corrupt objects.
- Sharing between nodes of one schema: the visitors update their own map in place, nested maps are values; a schema with the same map in two places is not modelled, nor are tree nodes shared by a merge of required trees.
- Texts are compared by number where the code names them (`Json.Text`); two spellings of one text do not occur in schemas read by the model.
- `DeepCopy` of the schema helpers: the same recursion as deepCopyValue, which is modelled on the heap.
- `node.expr`, and the rendering of path lists and reference lists: string formatting of what is proved about trees and paths.
- Refs.Mutate: the errors for unknown projections, missing kinds and absent paths, and the choice among several text nodes.
- The sorting of converted paths, and of chart folders: neither changes which paths or charts are listed.
- The block-device graph: parsing of lsblk lines, lookup by symbolic link or SCSI address, by-id links and sizes.
- helmReleaseValues: finding the config maps and parsing their content come as outcomes of each source.
- The sudo and bash runners: they pass on arguments unquoted, to be read by the shell.
- The other mutations (Enabled, Metadata, NormalizeIntOrString, StringifyFields, ExtractContent, ItemFields, ListShorthands): shallow rewrites.
- Files, prompts, clocks, processes, helm, kubectl, git, ssh, sops: inputs or not modelled. sha512 is a function of the bytes stated here.
- Characters: bytes of a key are taken as decoded characters; splitting at newlines and trimming blanks see no difference.
