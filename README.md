# Scalar reference resolution and schema display helpers in Dafny

This project models the algorithmic core of Scalar's OpenAPI tooling. It has six parts.

- **Circular-reference tracker** (`circular_reference_tracker.dfy`, module `CircularReferenceTracker`).
  - It is a class with the source's three fields: the live stack `currentPath`, the never-cleared set `visitedPaths` of '/'-joined paths, and the set `circularPaths` of paths whose entry was a repeat.
  - A ghost `history` records every `enter` call and what it returned.
  - The lemmas turn the two sets into statements about that history: a path is circular exactly when it was entered twice, and every circular path was visited.
- **Reference resolver** (`resolve_references.dfy`, module `ResolveReferences`).
  - The cloned document is an arena of object nodes held in the class `Resolver`. Two places can hold the same node, as JavaScript object references do.
  - `Dereference`, `RefLoop`, `Step`, `Lookup`, `ResolveUri` and `Children` rewrite the arena in place, as `dereference` and `resolveUri` do, except that `RefLoop` is the corrected reference loop of "Findings". `RefLoopAsWritten` is the loop as written.
    - Each call grows the visited set (`resolvedSchemas`).
    - Each call enters and exits the tracker.
    - Errors are pushed, or thrown in throwing mode, through an `Option<Error>` result.
  - `ResolveReferences` is the top level: the no-content case, the error deduplication and `valid`.
  - Recursion ends because the set of unvisited nodes shrinks.
  - The reference loop in `'mark'` mode does not end; see "Findings".
- **allOf merger** (`merge_all_of_schemas.dfy`, module `MergeAllOfSchemas`).
  - Schemas are JSON values (`json.dfy`, module `JsonValue`, which follows JavaScript truthiness and object spread).
  - The in-place updates of the fresh `result` object become returned values.
  - Item schemas are merged by the corrected `mergeItemsIntoResult` of "Findings" (`MergeItemsInto`); `MergeItemsIntoAsWritten` is the function as written.
  - Lemmas state what the fold computes: first truthy `type`/`title`/`description`, order-preserving union of `required`, and only the six merged keywords in the result.
- **Display helpers**, all pure:
  - `schema_name.dfy`: model names such as `array Planet[]`;
  - `flatten_default_value.dfy`: the case split on `default`;
  - `element_id.dfy`: element ids. `Path` is the identity, and `Operation` is `path/method`.
- `util.dfy` (module `Util`) holds `Option`, the keep-first deduplication (`[...new Set(xs)]`, the `findIndex` filter) and `join`.

## Model

| member | source | states |
|---|---|---|
| Util.DedupSameElements | packages/api-reference/src/components/Content/Schema/helpers/merge-all-of-schemas.ts:67 | deduplicating keeps exactly the elements of the list |
| Util.DedupNoDuplicates | packages/api-reference/src/components/Content/Schema/helpers/merge-all-of-schemas.ts:67 | the deduplicated list has no repeated element |
| Util.DedupOfNoDuplicates | packages/api-reference/src/components/Content/Schema/helpers/merge-all-of-schemas.ts:67 | a list without repeats is left as it is |
| Util.DedupPrefix | packages/api-reference/src/components/Content/Schema/helpers/merge-all-of-schemas.ts:67 | deduplicating `old ++ new` keeps the deduplicated `old` as a prefix, so earlier names keep their order |
| Util.DedupIdempotent | packages/api-reference/src/components/Content/Schema/helpers/merge-all-of-schemas.ts:67 | deduplicating twice is the same as once |
| Util.JoinSnoc | packages/openapi-parser/src/utils/circular-reference-tracker.ts:11-12 | pushing a segment extends the joined path by the separator and that segment (just the segment when the stack was empty) |
| JsonValue.Overlay | packages/api-reference/src/components/Content/Schema/helpers/merge-all-of-schemas.ts:270 | object spread: the keys of both objects, where the second object's values win and the first fills the rest |
| CircularReferenceTracker.PathsOfMeans | packages/openapi-parser/src/utils/circular-reference-tracker.ts:12-19 | a path is in the visited set of a history iff some `enter` in it computed that full path |
| CircularReferenceTracker.CircularOfMeans | packages/openapi-parser/src/utils/circular-reference-tracker.ts:14-16 | a path is in the circular set iff some `enter` with that full path returned true |
| CircularReferenceTracker.CircularMeansEnteredTwice | packages/openapi-parser/src/utils/circular-reference-tracker.ts:14-20 | in a consistent history, a path is circular iff it was entered at two different calls |
| CircularReferenceTracker.ConsistentSnoc | packages/openapi-parser/src/utils/circular-reference-tracker.ts:14-20 | an `enter` that returns "already visited" keeps the history consistent and adds its path to the visited set (and to the circular set when it returned true) |
| CircularReferenceTracker.CircularAreVisited | packages/openapi-parser/src/utils/circular-reference-tracker.ts:14-19 | `circularPaths` is a subset of `visitedPaths` |
| CircularReferenceTracker.Tracker.constructor | packages/openapi-parser/src/utils/circular-reference-tracker.ts:1-4 | a new tracker has an empty stack, empty sets and an empty history |
| CircularReferenceTracker.Tracker.Enter | packages/openapi-parser/src/utils/circular-reference-tracker.ts:10-21 | pushes exactly one segment; returns true iff the joined path was visited before; the visited set gains it, and the circular set gains it only on true |
| CircularReferenceTracker.Tracker.Exit | packages/openapi-parser/src/utils/circular-reference-tracker.ts:26-28 | pops one segment (a no-op on an empty stack); both sets stay the same |
| CircularReferenceTracker.Tracker.IsCircular | packages/openapi-parser/src/utils/circular-reference-tracker.ts:31-33 | true iff the path is in the circular set, that is, iff it was entered twice |
| CircularReferenceTracker.Tracker.GetCurrentPath | packages/openapi-parser/src/utils/circular-reference-tracker.ts:36-38 | the stack joined by '/': '' when it is empty, and the single segment when there is one |
| CircularReferenceTracker.SegmentsCollide | packages/openapi-parser/src/utils/circular-reference-tracker.ts:12 | the stacks `["a","b"]` and `["a/b"]` name the same path |
| CircularReferenceTracker.RepeatOnlyAfterExit | packages/openapi-parser/src/utils/circular-reference-tracker.test.ts:5-20 | Earth→Moon→Earth all return false; after all three exits, Earth returns true and is circular |
| CircularReferenceTracker.GalaxyVisited | packages/openapi-parser/src/utils/circular-reference-tracker.test.ts:123-128 | after MilkyWay, Earth, an exit and AndromedaGalaxy, the stack is MilkyWay/AndromedaGalaxy, the visited paths are exactly MilkyWay, MilkyWay/Earth and MilkyWay/AndromedaGalaxy, and none is circular |
| CircularReferenceTracker.SameSegmentOtherPrefix | packages/openapi-parser/src/utils/circular-reference-tracker.test.ts:123-137 | Earth under another prefix is not circular, and the current path is `MilkyWay/AndromedaGalaxy/Earth` |
| ElementId.Operation | packages/api-reference-v2/src/helpers/element-id.ts:3-4 | the operation id is the path id, then '/', then the method, and has length `|p| + |m| + 1` |
| ElementId.OperationInjective | packages/api-reference-v2/src/helpers/element-id.ts:4 | under one path, different methods give different ids; across paths, two operations whose methods have no '/' share an id only when path and method are both equal |
| ElementId.LastSlashEndsPath | packages/api-reference-v2/src/helpers/element-id.ts:4 | with a method without '/', the '/' after the path is the id's last, so an equal id cannot come from a longer path |
| ElementId.PathOperationCollide | packages/api-reference-v2/src/helpers/element-id.ts:1-4 | the path id of `/planets/get` equals the operation id of `get` on `/planets` |
| ElementId.PathInjective | packages/api-reference-v2/src/helpers/element-id.ts:3 | two paths have the same id iff they are the same path |
| FlattenDefaultValue.FlattenDefaultValue | packages/api-reference/src/components/Content/Schema/helpers/flatten-default-value.ts:8-26 | null gives 'null'; a one-element array gives its element, before the string case; a string or any other array is serialised; everything else passes through |
| FlattenDefaultValue.FlattenedShape | packages/api-reference/src/components/Content/Schema/helpers/flatten-default-value.ts:8-26 | inverse view: a null result comes only from `[null]`, an array result only from a one-element array holding it, and no result only from no default |
| SchemaName.GetModelNameFromSchema | packages/api-reference/src/components/Content/Schema/helpers/schema-name.ts:9-30 | null for a falsy schema; otherwise the first of truthy title, truthy name and a non-empty ref name, or null |
| SchemaName.FormatTypeWithModel | packages/api-reference/src/components/Content/Schema/helpers/schema-name.ts:35-37 | the type, a space and the model name, followed by `[]` exactly for arrays |
| SchemaName.GetModelName | packages/api-reference/src/components/Content/Schema/helpers/schema-name.ts:43-50 | null when the value has no truthy type, and null whenever model names are hidden |
| SchemaName.OwnNameWins | packages/api-reference/src/components/Content/Schema/helpers/schema-name.ts:53-56 | a title (or else a name) gives `array X[]` for arrays and `X` otherwise |
| SchemaName.ArrayNamedByItems | packages/api-reference/src/components/Content/Schema/helpers/schema-name.ts:59-75 | an unnamed array is `array T[]`, where T is the first of items.title, items.name, a ref name that differs from items.type, items.type, and 'object' |
| SchemaName.ArrayFormat | packages/api-reference/src/components/Content/Schema/helpers/schema-name.ts:35-37 | for the type 'array' the format is `array m[]` |
| SchemaName.RefNamedNonArray | packages/api-reference/src/components/Content/Schema/helpers/schema-name.ts:77-85 | for non-arrays, a ref name equal to the type gives null, a name `Array of X` gives `array X[]`, and any other name is returned as it is |
| SchemaName.ArrayWithItemsIsBracketed | packages/api-reference/src/components/Content/Schema/helpers/schema-name.ts:59-75 | every visible typed array with items gets a name of the form `array …[]` |
| MergeAllOfSchemas.MergeRequired | packages/api-reference/src/components/Content/Schema/helpers/merge-all-of-schemas.ts:65-73 | only `required` changes: the first non-empty list is copied, and a later one gives the order-preserving union of old and new |
| MergeAllOfSchemas.MergeFirstTruthy | packages/api-reference/src/components/Content/Schema/helpers/merge-all-of-schemas.ts:75-83 | a truthy value already in the result is never overwritten; otherwise a truthy schema value is taken; no other key changes |
| MergeAllOfSchemas.MergeAllOf | packages/api-reference/src/components/Content/Schema/helpers/merge-all-of-schemas.ts:12-51 | a non-array or empty list gives the root schema, or `{}`; otherwise the result has only the six merged keywords |
| MergeAllOfSchemas.MergeList | packages/api-reference/src/components/Content/Schema/helpers/merge-all-of-schemas.ts:22-38 | folding keeps the result within the six merged keywords |
| MergeAllOfSchemas.MergeSchemaInto | packages/api-reference/src/components/Content/Schema/helpers/merge-all-of-schemas.ts:57-138 | an empty schema changes nothing; otherwise only the six merged keywords are ever added, and every other key keeps its value; no property is lost, and every property the schema and its oneOf/anyOf options bring is present |
| MergeAllOfSchemas.MergeScalars | packages/api-reference/src/components/Content/Schema/helpers/merge-all-of-schemas.ts:64-83 | type, title and description are first-truthy-wins, `required` is that of mergeRequired, and every other key (`properties`, `items`, ...) keeps its value |
| MergeAllOfSchemas.MergeNested | packages/api-reference/src/components/Content/Schema/helpers/merge-all-of-schemas.ts:85-137 | only `items` and `properties` change; `properties` exists after a schema with properties, oneOf or anyOf, and holds every property those bring |
| MergeAllOfSchemas.MergeSchemaIntoKeywords | packages/api-reference/src/components/Content/Schema/helpers/merge-all-of-schemas.ts:64-137 | one merge step keeps first truthy type/title/description and creates `properties` for properties, oneOf or anyOf |
| MergeAllOfSchemas.MergeSchemaIntoRequired | packages/api-reference/src/components/Content/Schema/helpers/merge-all-of-schemas.ts:57-73 | one merge step leaves the `required` list of mergeRequired |
| MergeAllOfSchemas.ScalarsSurviveNested | packages/api-reference/src/components/Content/Schema/helpers/merge-all-of-schemas.ts:57-138 | the properties, items and oneOf/anyOf steps leave every key but `items` and `properties` as the scalar steps wrote it |
| MergeAllOfSchemas.MergePropertiesStep | packages/api-reference/src/components/Content/Schema/helpers/merge-all-of-schemas.ts:86-91 | only `properties` changes; with schema properties it is mergePropertiesIntoResult of the result's and the schema's properties, with exactly the keys of both; without them nothing changes |
| MergeAllOfSchemas.MergeItemsStep | packages/api-reference/src/components/Content/Schema/helpers/merge-all-of-schemas.ts:93-119 | only `items` and `properties` change and no property is lost; an array schema: items with allOf are merged and overlaid on `result.items` (or `{}`), other items merged by the corrected mergeItemsIntoResult, properties untouched; a non-array schema with items.allOf: items untouched, the merged items' properties merged into `result.properties`; otherwise nothing changes |
| MergeAllOfSchemas.MergeOptions | packages/api-reference/src/components/Content/Schema/helpers/merge-all-of-schemas.ts:122-137 | a schema with oneOf/anyOf leaves `properties` as every option's properties folded in by mergePropertiesIntoResult, with exactly the old keys plus the options'; only `properties` changes; without the keyword nothing changes |
| MergeAllOfSchemas.MergeOptionProperties | packages/api-reference/src/components/Content/Schema/helpers/merge-all-of-schemas.ts:131-136 | the keys are the old keys plus those of every option's properties, and a property no option names keeps its value |
| MergeAllOfSchemas.MergeProperties | packages/api-reference/src/components/Content/Schema/helpers/merge-all-of-schemas.ts:143-201 | the keys of both maps; keys not incoming stay; each incoming key is the property merge of its existing and incoming values; an empty map changes nothing |
| MergeAllOfSchemas.MergeProperty | packages/api-reference/src/components/Content/Schema/helpers/merge-all-of-schemas.ts:152-199 | non-objects overwrite; a new key is inserted, or replaced by the merge of its allOf, or keeps its fields with items.allOf merged; existing+allOf merges `[existing, ...allOf]`; existing+array items keeps existing fields with type 'array' and items from mergeItems or the incoming ones; otherwise incoming wins the overlay, with both sides' properties merged by mergePropertiesIntoResult when both have them and the incoming properties otherwise |
| MergeAllOfSchemas.MergeItemsInto | packages/api-reference/src/components/Content/Schema/helpers/merge-all-of-schemas.ts:206-240 | with allOf on either side, the merged operands overlaid; otherwise incoming fields win, and `properties` is mergePropertiesIntoResult of both sides when both have them and the incoming one otherwise |
| MergeAllOfSchemas.MergeItems | packages/api-reference/src/components/Content/Schema/helpers/merge-all-of-schemas.ts:245-279 | with allOf on either side, the merge of both sides' operands; otherwise a new overlay where incoming wins, and `properties` is mergePropertiesIntoResult of both sides when both have them and the incoming one otherwise |
| MergeAllOfSchemas.FirstTruthy | packages/api-reference/src/components/Content/Schema/helpers/merge-all-of-schemas.ts:75-83 | the value of the first schema whose key is truthy (no earlier schema has a truthy one), or none when no schema has one |
| MergeAllOfSchemas.MergeListUnfold | packages/api-reference/src/components/Content/Schema/helpers/merge-all-of-schemas.ts:22-38 | a fold step merges an object element and skips any other one, then folds the rest |
| MergeAllOfSchemas.FoldStepKeywords | packages/api-reference/src/components/Content/Schema/helpers/merge-all-of-schemas.ts:75-83 | a single fold step keeps first truthy type/title/description |
| MergeAllOfSchemas.FoldStepRequired | packages/api-reference/src/components/Content/Schema/helpers/merge-all-of-schemas.ts:65-73 | a single fold step's `required` holds exactly the names of both lists |
| MergeAllOfSchemas.MergeListFirstTruthy | packages/api-reference/src/components/Content/Schema/helpers/merge-all-of-schemas.ts:22-38 | after folding, type/title/description are the accumulator's own when truthy, else the first truthy one in the list |
| MergeAllOfSchemas.MergeListRequired | packages/api-reference/src/components/Content/Schema/helpers/merge-all-of-schemas.ts:22-38 | after folding, `required` holds exactly the names of the accumulator and of every element |
| MergeAllOfSchemas.FoldStepPropertyKeys | packages/api-reference/src/components/Content/Schema/helpers/merge-all-of-schemas.ts:22-38 | a single fold step keeps every property and adds the head's own and its options' |
| MergeAllOfSchemas.MergeListPropertyKeys | packages/api-reference/src/components/Content/Schema/helpers/merge-all-of-schemas.ts:22-38 | after folding, every property of the accumulator and every property some element or option brings is present |
| MergeAllOfSchemas.MergeAllOfFirstTruthy | packages/api-reference/src/components/Content/Schema/helpers/merge-all-of-schemas.ts:12-51 | the merged type/title/description is that of the first schema where it is truthy |
| MergeAllOfSchemas.MergeAllOfRequired | packages/api-reference/src/components/Content/Schema/helpers/merge-all-of-schemas.ts:12-51 | the merged `required` holds exactly the names required by some schema |
| MergeAllOfSchemas.MergeAllOfPropertyKeys | packages/api-reference/src/components/Content/Schema/helpers/merge-all-of-schemas.ts:12-51 | every property some schema or option brings is a property of the merged schema |
| MergeAllOfSchemas.MergeAllOfWithRoot | packages/api-reference/src/components/Content/Schema/helpers/merge-all-of-schemas.ts:40-48 | the root schema is merged last into the result of folding the list: a falsy or primitive root changes nothing, a root with allOf is flattened first, any other root is merged as it is |
| MergeAllOfSchemas.MergeListStep | packages/api-reference/src/components/Content/Schema/helpers/merge-all-of-schemas.ts:22-38 | an object element without allOf is merged, then the rest is folded from there |
| MergeAllOfSchemas.MergeListNestedStep | packages/api-reference/src/components/Content/Schema/helpers/merge-all-of-schemas.ts:31-35 | an element with its own allOf: that list is merged on its own, then the result is merged in, then the rest is folded |
| MergeAllOfSchemas.NestedSiblingsIgnored | packages/api-reference/src/components/Content/Schema/helpers/merge-all-of-schemas.ts:31-35 | an element with its own allOf folds exactly as `{allOf}` alone: its other keywords are dropped |
| MergeAllOfSchemas.FirstRequiredCopied | packages/api-reference/src/components/Content/Schema/helpers/merge-all-of-schemas.ts:70-72 | into an empty result, the first `required` list is copied as it is |
| MergeAllOfSchemas.SecondRequiredScalars | packages/api-reference/src/components/Content/Schema/helpers/merge-all-of-schemas.ts:65-68 | a second distinct required name is appended after the first |
| MergeAllOfSchemas.SecondRequiredAppended | packages/api-reference/src/components/Content/Schema/helpers/merge-all-of-schemas.ts:57-73 | merging `{required:[y]}` into `{required:[x]}` gives `{required:[x, y]}` |
| MergeAllOfSchemas.RequiredListsCombine | packages/api-reference/src/components/Content/Schema/helpers/merge-all-of-schemas.ts:12-51 | `allOf: [{required:[x]}, {required:[y]}]` merges to `{required:[x, y]}` |
| MergeAllOfSchemas.RequiredFoldedInOrder | packages/api-reference/src/components/Content/Schema/helpers/merge-all-of-schemas.ts:22-38 | the two lists are folded left to right into `[x, y]` |
| MergeAllOfSchemas.FoldFirstRequired | packages/api-reference/src/components/Content/Schema/helpers/merge-all-of-schemas.ts:22-38 | folding the first element into the empty result leaves exactly its `required` |
| MergeAllOfSchemas.FoldSecondRequired | packages/api-reference/src/components/Content/Schema/helpers/merge-all-of-schemas.ts:22-38 | folding the second element appends its name |
| MergeAllOfSchemas.PropertyAdded | packages/api-reference/src/components/Content/Schema/helpers/merge-all-of-schemas.ts:143-160 | merging a new empty-schema property adds it and keeps the others |
| MergeAllOfSchemas.NestedPropertiesOnly | packages/api-reference/src/components/Content/Schema/helpers/merge-all-of-schemas.ts:85-137 | a schema without items, oneOf and anyOf only runs the properties step |
| MergeAllOfSchemas.ScalarsPropertiesOnly | packages/api-reference/src/components/Content/Schema/helpers/merge-all-of-schemas.ts:64-83 | a schema with nothing but properties leaves the result's other keywords alone |
| MergeAllOfSchemas.FirstPropertyStep | packages/api-reference/src/components/Content/Schema/helpers/merge-all-of-schemas.ts:86-91 | the properties step on an empty result creates `properties` holding the new one |
| MergeAllOfSchemas.NextPropertyStep | packages/api-reference/src/components/Content/Schema/helpers/merge-all-of-schemas.ts:86-91 | the properties step adds a new property next to the existing ones |
| MergeAllOfSchemas.FirstPropertySchema | packages/api-reference/src/components/Content/Schema/helpers/merge-all-of-schemas.ts:57-138 | merging `{properties:{a:{}}}` into `{}` copies it |
| MergeAllOfSchemas.NextPropertySchema | packages/api-reference/src/components/Content/Schema/helpers/merge-all-of-schemas.ts:57-138 | merging `{properties:{b:{}}}` into a properties-only result adds `b` |
| MergeAllOfSchemas.FoldFirstProperty | packages/api-reference/src/components/Content/Schema/helpers/merge-all-of-schemas.ts:22-38 | folding the first element into the empty result leaves exactly its property |
| MergeAllOfSchemas.FoldSecondProperty | packages/api-reference/src/components/Content/Schema/helpers/merge-all-of-schemas.ts:22-38 | folding the second element adds its property |
| MergeAllOfSchemas.PropertiesFoldedInOrder | packages/api-reference/src/components/Content/Schema/helpers/merge-all-of-schemas.ts:22-38 | the two elements fold into `{properties:{a, b}}` |
| MergeAllOfSchemas.PropertyListsCombine | packages/api-reference/src/components/Content/Schema/helpers/merge-all-of-schemas.ts:12-51 | `allOf: [{properties:{a:{}}}, {properties:{b:{}}}]` merges to `{properties:{a:{}, b:{}}}` |
| MergeAllOfSchemas.MergeItemsIntoAsWritten | packages/api-reference/src/components/Content/Schema/helpers/merge-all-of-schemas.ts:233-239 | as written, the result's item properties are exactly the incoming ones |
| MergeAllOfSchemas.ItemPropertiesOverwritten | packages/api-reference/src/components/Content/Schema/helpers/merge-all-of-schemas.ts:234-239 | as written, an item property only the result had is lost |
| MergeAllOfSchemas.ItemPropertiesMerged | packages/api-reference/src/components/Content/Schema/helpers/merge-all-of-schemas.ts:236-239 | corrected, the item properties of both sides are kept |
| ResolveReferences.Fill | packages/openapi-parser/src/utils/resolve-references.ts:156-160 | a resolved key is copied only where the node has no value, so sibling keys beside `$ref` win |
| ResolveReferences.Marked | packages/openapi-parser/src/utils/resolve-references.ts:144-154 | a circular step adds `isCircular: true` and keeps `$ref`; any other step deletes `$ref` and changes nothing else |
| ResolveReferences.HashIndex | packages/openapi-parser/src/utils/resolve-references.ts:215 | the position of the first '#', or the length when there is none |
| ResolveReferences.SplitRef | packages/openapi-parser/src/utils/resolve-references.ts:215 | the prefix has no '#'; there is a path iff the uri has a '#'; prefix, '#' and path are a prefix of the uri, and the path runs to the end of the uri or to its second '#' |
| ResolveReferences.SplitRefRoundTrip | packages/openapi-parser/src/utils/resolve-references.ts:215 | for a uri with at most one '#', prefix and path put back together give the uri |
| ResolveReferences.SplitLocal | packages/openapi-parser/src/utils/resolve-references.ts:245 | the rebuilt `#path` splits into an empty prefix and that path |
| ResolveReferences.FindFile | packages/openapi-parser/src/utils/resolve-references.ts:222-224 | the first file with that name, or none when no file has it |
| ResolveReferences.WalkBroken | packages/openapi-parser/src/utils/resolve-references.ts:249-265 | the walk fails iff some intermediate value is undefined or null; a missing last segment is no error |
| ResolveReferences.WalkClosed | packages/openapi-parser/src/utils/resolve-references.ts:253-255 | a walk that ends on a value ends inside the document |
| ResolveReferences.FindIndex | packages/openapi-parser/src/utils/resolve-references.ts:92 | the index of the first equal error, or the length when there is none |
| ResolveReferences.FirstOccurrencesIsDedup | packages/openapi-parser/src/utils/resolve-references.ts:91-93 | the `findIndex` filter is the keep-first deduplication |
| ResolveReferences.ErrorsDeduplicated | packages/openapi-parser/src/utils/resolve-references.ts:91-93 | the filtered errors have no duplicates and are exactly the reported ones |
| ResolveReferences.EnteringProgresses | packages/openapi-parser/src/utils/resolve-references.ts:133 | entering a new tracker path leaves fewer unvisited candidate paths |
| ResolveReferences.Resolver.constructor | packages/openapi-parser/src/utils/resolve-references.ts:80-88 | a fresh visited set, a fresh tracker and the given errors |
| ResolveReferences.Resolver.Fail | packages/openapi-parser/src/utils/resolve-references.ts:201-209 | in throwing mode the error is thrown and not pushed; otherwise it is pushed |
| ResolveReferences.Resolver.ResolveUri | packages/openapi-parser/src/utils/resolve-references.ts:186-268 | a non-string is INVALID_REFERENCE; a local pointer is walked, and a broken walk is INVALID_REFERENCE; an unknown file is EXTERNAL_REFERENCE_NOT_FOUND; a whole file is its specification; a pointer into a file is walked after that file is dereferenced |
| ResolveReferences.Resolver.Dereference | packages/openapi-parser/src/utils/resolve-references.ts:106-179 | a scalar or a node met before is left alone; a node is marked visited before it is processed, its reference is entered, and every child object is then visited; the tracker ends at the depth it started at |
| ResolveReferences.Resolver.RefLoop | packages/openapi-parser/src/utils/resolve-references.ts:128-171 | the loop ends with no `$ref` left or after a step that cannot go on; a circular reference keeps `$ref` beside `isCircular: true`; a reference to no object stays |
| ResolveReferences.Resolver.RefLoopAsWritten | packages/openapi-parser/src/utils/resolve-references.ts:128-171 | as written, from a state where the same reference would be entered again, no fuel is enough |
| ResolveReferences.Resolver.Step | packages/openapi-parser/src/utils/resolve-references.ts:130-170 | one pass: enter and exit the tracker, circular iff the path was seen, break mode stops before merging, resolved keys fill the gaps, `onDereference` is told, and failures leave the node as it was |
| ResolveReferences.Resolver.Lookup | packages/openapi-parser/src/utils/resolve-references.ts:130-136 | the reference is entered on the tracker; the pass is circular iff its path was visited; a local pointer leads to the end of its walk |
| ResolveReferences.Resolver.Rewrite | packages/openapi-parser/src/utils/resolve-references.ts:143-164 | break mode on a circular reference only marks the node; otherwise mark or delete `$ref`, fill the gaps, and report a non-empty reference |
| ResolveReferences.Resolver.Children | packages/openapi-parser/src/utils/resolve-references.ts:174-178 | every child object of the node is visited |
| ResolveReferences.Input | packages/openapi-parser/src/utils/resolve-references.ts:64 | the given file's specification unless it is null or missing, else the entrypoint's |
| ResolveReferences.ResolveReferences | packages/openapi-parser/src/utils/resolve-references.ts:45-101 | a non-object throws NO_CONTENT or returns `valid: false` with the incoming errors; otherwise the same document comes back, with errors deduplicated, the incoming errors kept first, and `valid` iff none was reported (so never with incoming errors) |
| ResolveReferences.SiblingDocument | packages/openapi-parser/src/utils/resolve-references.ts:128-154 | a document where two sibling objects both reference `#/c` |
| ResolveReferences.SiblingReferencesStart | packages/openapi-parser/src/utils/resolve-references.ts:80-88 | the resolver in mark mode, having started on the first sibling |
| ResolveReferences.SiblingReferencesFollowed | packages/openapi-parser/src/utils/resolve-references.ts:128-171 | after the first sibling's loop, the path `#/c` is in the visited set |
| ResolveReferences.SiblingSecondStarts | packages/openapi-parser/src/utils/resolve-references.ts:118-133 | the second sibling starts in a state the loop as written cannot leave |
| ResolveReferences.SiblingReferencesScenario | packages/openapi-parser/src/utils/resolve-references.ts:128-171 | the loop as written exhausts any fuel on the second sibling |

## Left out

- `structuredClone` (resolve-references.ts:56) is left out: the arena handed to `ResolveReferences` is the clone, and the caller's value is never in it.
- `makeFilesystem` and `getEntrypoint` become parameters (the file list and the entrypoint entry). String and array inputs to `resolveReferences` are not modelled.
- `getSegmentsFromPath` is a parameter (`Segmenter`): pointer decoding is not part of this model. So are the `ERRORS` message templates (`Messages`), `getRefName` (`RefNamer`) and `JSON.stringify`.
- `isObject` is `Node?`: arrays are nodes whose keys are the indices.
- `getResolvedRef` is taken as the identity: references inside the merged schemas are treated as already resolved.
- The iteration order of `Object.keys`/`Object.values` is not modelled. The resolver's methods pick keys in any order, and their contracts hold for every order.
- `onDereference` is recorded as an appended `(node, ref)` trace entry. Throwing mode is an `Option<Error>` result that stops the caller.
- The merger uses value semantics. Aliasing of shared inputs (merge-all-of-schemas.ts:170, :234) and writes into the caller's objects are not captured.
- Every merge function takes `fuel`, and None means the merge nested deeper than the fuel allows. Recursion deeper than the fuel is not modelled. `RefLoopAsWritten` also takes fuel, because as written the loop need not end.
- `JsonValue` numbers are integers; floating point is not modelled.
- MergeAllOfSchemas.MergeAllOf: the contract states only the empty case and the keyword bound. The fold's results (first truthy keywords, `required`, root last) are the separate lemmas.
- MergeAllOfSchemas.MergeAllOfFirstTruthy: stated only for lists with no element carrying its own `allOf`. Such an element is merged as its allOf list alone (MergeListNestedStep, NestedSiblingsIgnored), so its own keywords do not count, and the first-truthy statement over the list's elements does not hold for it.
- MergeAllOfSchemas.MergeListFirstTruthy: stated only for lists with no element carrying its own `allOf`, as for MergeAllOfFirstTruthy.
- MergeAllOfSchemas.MergeListRequired: stated only for lists with no element carrying its own `allOf`; such an element's own `required` is dropped.
- MergeAllOfSchemas.MergeListPropertyKeys: stated only for lists with no element carrying its own `allOf`; such an element's own `properties` are dropped.
- MergeAllOfSchemas.MergeAllOfRequired: states the set of required names; the order is stated by DedupPrefix and the two-list lemmas. Stated only for lists with no element carrying its own `allOf`.
- MergeAllOfSchemas.MergeOptionProperties: states the key set and the untouched values; the value of a key an option names is stated per option by MergeProperties.
- MergeAllOfSchemas.MergeSchemaInto: states the property keys as a lower bound; each property's value is stated per step by MergePropertiesStep, MergeItemsStep and MergeOptions. The same holds for MergeListPropertyKeys.
- MergeAllOfSchemas.MergeNested: states the property keys as a lower bound and the untouched keys; the values of `properties` and `items` are stated by the three step functions it chains.
- MergeAllOfSchemas.MergeAllOfPropertyKeys: a lower bound on the keys; a non-array schema's `items.allOf` can bring more. Stated only for lists with no element carrying its own `allOf`.
- A truthy `oneOf`/`anyOf` that is not an array (merge-all-of-schemas.ts:131) is treated as an empty list, and a null option is skipped; in JavaScript iterating an object or a number, or reading `properties` of a null option, throws a TypeError, and a string iterates its characters, which carry no properties.
- A primitive external specification (resolve-references.ts:121, :124): `WeakSet.add` throws a TypeError on it, while the model's Dereference leaves any non-node alone.
- A `$ref` value that is an array is printed as `[object Object]` in tracker paths and messages, because arrays are nodes here; JavaScript prints its elements joined by ','.
- Spreading a string or an array into an object (merge-all-of-schemas.ts:183, :190, :197, :270) copies its index keys in JavaScript; `Fields` of a non-object is empty here.
- A truthy `allOf` that is not an array is read as an empty list by `Elements` and `AllOfOperands`; JavaScript throws a TypeError when it spreads or iterates a non-iterable one (merge-all-of-schemas.ts:179, :213, :221, :252, :260), and a string iterates its characters.
- ResolveReferences.Prop: reads only a node's own keys. `acc[key]` (resolve-references.ts:253-255) also reads string indices and `length`, and inherited members such as `__proto__`; so `#/__proto__` resolves to an object in JavaScript but breaks the walk here, and `#/info/title/0/x` is `undefined` there but INVALID_REFERENCE here.
- SchemaName.GetModelNameFromSchema: a truthy primitive schema (such as the boolean schema `items: true`) makes `'title' in schema` (schema-name.ts:15) throw a TypeError; the model reads it as having no title or name. ArrayWithItemsIsBracketed therefore names such an array where JavaScript throws.
- ElementId.OperationInjective: operation ids are unique across paths only for methods without '/', and a path id can equal an operation id (PathOperationCollide: `/planets/get`). So the element ids are unique only when no path equals another path followed by '/' and a method.
- MergeAllOfSchemas.MergeList: states only the keyword bound. Its steps are MergeListStep, MergeListNestedStep and MergeListUnfold, and the fold lemmas state the rest for lists without nested `allOf`.
- MergeAllOfSchemas.MergeItemsStep: uses the corrected MergeItemsInto ("Findings"), so MergeAllOf and every lemma about the fold describe the corrected merge. As written, `allOf: [{type:'array', items:{properties:{a:{}}}}, {type:'array', items:{properties:{b:{}}}}]` merges to items with properties `{b}` (merge-all-of-schemas.ts:234-239); here they are `{a, b}`.
- SchemaName.GetModelName: its own contract covers untyped values and hidden names only. The named cases are the lemmas OwnNameWins, ArrayNamedByItems and RefNamedNonArray.
- ResolveReferences.Resolver.ResolveUri: for a pointer into another file whose walk breaks, the contract does not state which error is reported.
- ResolveReferences.Resolver.Dereference: does not state each node's final contents; Step and RefLoop state them per pass. It calls the corrected RefLoop ("Findings"), so it returns on documents where `dereference` as written never returns, such as two siblings with the same `$ref` in mark mode.
- ResolveReferences.ResolveReferences: the reported errors are related to the output but not to the document's content (which references were broken).
- ResolveReferences.Resolver.RefLoopAsWritten: states only the non-ending case; otherwise it shares Step's contract per pass.

## Findings

| source | as written | input that shows it | evidently intended | confidence | as-written member | corrected member |
|---|---|---|---|---|---|---|
| packages/openapi-parser/src/utils/resolve-references.ts:128-171 | In `'mark'` mode (the default) a circular pass keeps `$ref`, so the `while` loop enters the same reference under the same tracker path on every pass. Each pass is circular again, and the loop never ends. | Two sibling objects `{ "$ref": "#/c" }` in one document, `#/c` an object: the second sibling's path `#/c` was visited by the first | mark the node `isCircular`, merge once, and leave the loop | not executed | ResolveReferences.Resolver.RefLoopAsWritten (ResolveReferences.SiblingReferencesScenario) | ResolveReferences.Resolver.RefLoop |
| packages/api-reference/src/components/Content/Schema/helpers/merge-all-of-schemas.ts:234-239 | `Object.assign(result, items)` runs before the properties merge, so `result.properties` already is `items.properties`. The merge is a self-merge, and the result's own item properties are lost. | result items `{properties: {a: {}}}`, incoming items `{properties: {b: {}}}`: merged item properties are `{b}` | item properties `{a, b}` | not executed | MergeAllOfSchemas.MergeItemsIntoAsWritten (MergeAllOfSchemas.ItemPropertiesOverwritten) | MergeAllOfSchemas.MergeItemsInto (MergeAllOfSchemas.ItemPropertiesMerged) |
