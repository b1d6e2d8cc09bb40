# spark-sql-generator: the ADD-path generator in Dafny

This project models the core of `spark_sql_generator.py`. That file turns a list of
schema-evolution operation groups into Spark SQL `ALTER TABLE` statements. The largest
part, and the centre of the model, is `OrderPreservingGenerator`. It takes a flat,
ordered list of column descriptors with dotted paths, where a `.element.` segment
means "array element". From those it rebuilds the nested `struct<...>` /
`array<struct<...>>` column tree and renders one `ALTER TABLE {table_name} ADD COLUMNS
(...)` statement. A `processed_paths` set that only grows makes sure a field emitted
inside a struct or an array is not emitted again.

Modules, leaves first:

- `Wrappers`, `Strings`, `Collections`: `Option`; Python's `split`, `join`,
  `startswith`, `count` and `in` on strings; insertion-ordered dicts (`Dict`:
  keys in first-insertion order, last write wins); first-seen deduplication; the
  stable sort `list.sort(key=...)`.
- `Schema`: the ADD descriptor (`path`, `value`, `arr_type`, `nestedFields`, `doc`,
  `moveafter`) and the `helper` collaborators, passed as a `Helper` value.
- `Formatter`: `SQLFormatter`.
- `PathIndex`: the lookup tables that `_preprocess_input` and
  `_process_array_elements` build, as functions of the input, plus what they
  guarantee.
- `Tree`: direct and ordered children, and the marking of processed paths.
- `Render`: the struct and array formatters, as a mutually recursive family of
  functions over the built index and the processed set.
- `Renderer`: the accumulator loops of those formatters, as methods proved equal to
  the `Render` functions.
- `Passes`: the top-level pass, the sweep of remaining items and the final statement,
  as functions.
- `Generator`: the class `OrderPreservingGenerator`, with the fields the source
  updates. Every method is proved to leave exactly the state, or to return exactly
  the value, that the matching function computes from the old state.
- `PathHandlers`: the class `PathHandler`.
- `ColumnGenerator`: `SQLColumnGenerator.generate_sql`, i.e. the dispatch over
  operation groups.

All source references below are to `src/spark_sql_generator/spark_sql_generator.py`.

## Model

| member | source | states |
|---|---|---|
| Formatter.FormatPath | src/spark_sql_generator/spark_sql_generator.py:8-12 | `format_path`: each dot-separated segment in backticks, rejoined with dots; its guarantees (one quoted part per segment, unquoting gives the path back) are the contract of `Formatter.FormatPathRoundTrip` |
| Formatter.FormatComment | src/spark_sql_generator/spark_sql_generator.py:13-17 | `format_comment`: `COMMENT ` followed by the comment literal of the helper module, which is the uninterpreted `describe` parameter here |
| Formatter.QuoteAll | src/spark_sql_generator/spark_sql_generator.py:8-12 | one backtick-quoted segment per input segment, in order |
| Formatter.FormatPathRoundTrip | src/spark_sql_generator/spark_sql_generator.py:8-12 | `format_path` keeps the segment count (each dot-part of the result is the quoted input segment), and stripping the outer backticks of every part gives the original path back |
| Formatter.FormatAfterClause | src/spark_sql_generator/spark_sql_generator.py:18-26 | no `moveafter` gives exactly `""`, `"first"` gives exactly `" FIRST"`, and any other value `x` gives `" AFTER "` followed by `x` in backticks (both directions for the first two) |
| Formatter.AfterClauseRoundTrip | src/spark_sql_generator/spark_sql_generator.py:18-26 | the positional clause determines the `moveafter` it was made from |
| PathIndex.OriginalOrderOf | src/spark_sql_generator/spark_sql_generator.py:339-343 | `_track_original_order`: each input path mapped to its index, a later one overwriting; stated by `PathIndex.OriginalOrderIsLastIndex` |
| PathIndex.PathDataOf | src/spark_sql_generator/spark_sql_generator.py:347-352 | `path_data[path] = item` for each item in turn; stated by `PathIndex.PathDataFirstSeenLastWrite` |
| PathIndex.TopLevelOf | src/spark_sql_generator/spark_sql_generator.py:355-358 | `top_level_items`: an item is kept when its first segment is new; stated by `PathIndex.TopLevelHeads`, `PathIndex.TopLevelFirstItem` and `PathIndex.TopLevelFirstSeen` |
| PathIndex.ArrayNestedFieldsOf | src/spark_sql_generator/spark_sql_generator.py:364-373 | `_process_array_nested_fields` over every item; stated by `PathIndex.ArrayNestedFieldsKeys` and `PathIndex.ArrayNestedFieldsLastWrite` |
| PathIndex.ArrayNestedFieldsKeys | src/spark_sql_generator/spark_sql_generator.py:364-373 | `array_nested_fields` holds exactly the paths of array items with a `nestedFields` object |
| PathIndex.ArrayNestedFieldsLastWrite | src/spark_sql_generator/spark_sql_generator.py:364-373 | each of those paths holds the object of the last such item with that path, a later one overwriting |
| PathIndex.ElementFieldsOf | src/spark_sql_generator/spark_sql_generator.py:375-394 | `element_fields` and `element_field_order`, grouped by array path; stated by `PathIndex.ElementFieldsFirstSeen` |
| PathIndex.FieldOrderOf | src/spark_sql_generator/spark_sql_generator.py:396-406 | `_build_field_order_hierarchy` applied to every input path; stated by `PathIndex.FieldOrderFirstSeen` |
| PathIndex.OriginalOrderIsLastIndex | src/spark_sql_generator/spark_sql_generator.py:339-343 | `original_order` has exactly the input paths as keys, and each maps to the index of the path's LAST occurrence |
| PathIndex.PathDataFirstSeenLastWrite | src/spark_sql_generator/spark_sql_generator.py:347-352 | `path_data`'s keys are the distinct input paths in first-seen order, and each holds the item at its last occurrence |
| PathIndex.HeadSetIsHeads | src/spark_sql_generator/spark_sql_generator.py:355-358 | `top_level_paths` is exactly the set of first segments of the input paths |
| PathIndex.TopLevelHeads | src/spark_sql_generator/spark_sql_generator.py:355-358 | the first segments of `top_level_items` are the input's first segments, deduplicated in first-seen order |
| PathIndex.TopLevelFirstItem | src/spark_sql_generator/spark_sql_generator.py:355-358 | each `top_level_items` entry is the first input item whose path has that first segment |
| PathIndex.TopLevelFirstSeen | src/spark_sql_generator/spark_sql_generator.py:355-358 | `top_level_items` holds exactly one item per distinct first segment (no duplicates, none missing), ordered by first appearance, each the first input item with it |
| PathIndex.TopLevelAt | src/spark_sql_generator/spark_sql_generator.py:355-358 | one more input item adds its first segment to `top_level_paths`, and adds the item to `top_level_items` exactly when the segment was unseen |
| PathIndex.SplitElementPath | src/spark_sql_generator/spark_sql_generator.py:408-413 | the pieces around the first `.element.` rebuild the path (`base + ".element." + rest == path`), and `base` contains no `.element.` |
| PathIndex.ElementFieldsFirstSeen | src/spark_sql_generator/spark_sql_generator.py:375-394 | an array has an `element_fields` list exactly when some path lies under its `.element.`; the list has no duplicates, holds exactly the remainders seen for that array, and keeps first-seen order |
| PathIndex.LevelPairs | src/spark_sql_generator/spark_sql_generator.py:398-400 | level `i` of a path is the pair (`".".join(parts[:i])`, `parts[i]`) |
| PathIndex.FieldOrderFirstSeen | src/spark_sql_generator/spark_sql_generator.py:396-406 | a parent has a `field_order` list exactly when some path has a segment directly under it; the list has no duplicates, holds exactly those segments, and keeps first-seen order |
| PathIndex.EnsureTable | src/spark_sql_generator/spark_sql_generator.py:277-278 | `if k not in m: m[k] = {}` adds `k`, makes it map to an empty dict only if it was missing, and leaves every other entry unchanged |
| PathIndex.ElementPaths | src/spark_sql_generator/spark_sql_generator.py:262 | the element paths are exactly the `path_data` keys containing `.element.` |
| PathIndex.ElementPathStep | src/spark_sql_generator/spark_sql_generator.py:270-284 | `_process_element_path`: split at `.element.`, a table ensured for the base, then the multi-level case for three or more pieces and the simple case for two; `PathIndex.ElementPathStepOk` states that it keeps the element tables well formed |
| PathIndex.MultilevelStep | src/spark_sql_generator/spark_sql_generator.py:286-318 | `_process_multilevel_element_path`: files the nested array under its parent array and its field under the nested array; carried by `PathIndex.ElementPathStepOk` and the method `Generator.OrderPreservingGenerator.ProcessMultilevelElementPath` |
| PathIndex.SimpleStep | src/spark_sql_generator/spark_sql_generator.py:320-328 | `_process_simple_element_path`: files the field name under its array; carried by `PathIndex.ElementPathStepOk` and the method `Generator.OrderPreservingGenerator.ProcessSimpleElementPath` |
| PathIndex.ArrayTablesOf | src/spark_sql_generator/spark_sql_generator.py:253-268 | `_process_array_elements`: the element paths (`PathIndex.ElementPaths`), stably sorted by how many `.element.` they hold, each processed in turn; `PathIndex.ArrayElementsOk` states the tables it builds are well formed |
| PathIndex.ElementPathStepOk | src/spark_sql_generator/spark_sql_generator.py:270-328 | one `_process_element_path` step keeps every element table a well-formed dict whose entries name paths longer than their array |
| PathIndex.ArrayElementsOk | src/spark_sql_generator/spark_sql_generator.py:253-268 | after `_process_array_elements`, every element table is well formed |
| PathIndex.BuildIndex | src/spark_sql_generator/spark_sql_generator.py:170-173 | `_preprocess_input` followed by `_process_array_elements`; each table is stated by the lemmas above, and `PathIndex.BuildIndexWellFormed` states that the whole index is well formed for any input |
| PathIndex.BuildIndexWellFormed | src/spark_sql_generator/spark_sql_generator.py:330-337 | the index built from any input satisfies everything rendering relies on |
| Tree.HasChildren | src/spark_sql_generator/spark_sql_generator.py:415-421 | `_has_children`: some other key starts with `parent + "."`; `Tree.HasChildrenMarksMore` ties it to the marking |
| Tree.HasChildrenMarksMore | src/spark_sql_generator/spark_sql_generator.py:415-429 | a path has children exactly when `_mark_processed` of it marks something besides the path itself |
| Tree.IsChildOfProcessed | src/spark_sql_generator/spark_sql_generator.py:244-251 | `_is_child_of_processed_path`: some proper dot-prefix is processed; stated by `Tree.IsChildOfProcessedIff` |
| Tree.IsChildOfProcessedIff | src/spark_sql_generator/spark_sql_generator.py:244-251 | the scan over proper segment prefixes succeeds exactly when the path extends some processed path by a dot (both directions) |
| Tree.DirectChildren | src/spark_sql_generator/spark_sql_generator.py:431-455 | `_get_direct_children(parent)`: the loop of `Tree.DirectChildrenOf` over all keys, whose contract states that every child lies below the parent |
| Tree.AddDirectChild | src/spark_sql_generator/spark_sql_generator.py:457-481 | `_add_direct_child_if_matched`: the three direct-child cases; stated by `Tree.AddDirectChildBelow` and `Tree.ArrayListedTwice` |
| Tree.DirectChildrenOf | src/spark_sql_generator/spark_sql_generator.py:431-455 | every direct child is a `path_data` key longer than the parent and, for a non-empty parent, starts with `parent + "."` |
| Tree.AddDirectChildBelow | src/spark_sql_generator/spark_sql_generator.py:457-481 | each of the three direct-child cases adds only keys that lie below the parent |
| Tree.ArrayListedTwice | src/spark_sql_generator/spark_sql_generator.py:461-472 | an array whose element path comes before its own key is listed twice: once by case 2 (the collapsed array path), then again by case 1 (its own key, with no dot left) |
| Tree.ChildStepBelow | src/spark_sql_generator/spark_sql_generator.py:438-453 | one turn of the `_get_direct_children` loop adds only keys below the parent |
| Tree.ChildPathInjective | src/spark_sql_generator/spark_sql_generator.py:544 | different field names give different child paths |
| Tree.InFieldOrder | src/spark_sql_generator/spark_sql_generator.py:543-546 | the first loop of `_get_ordered_children` keeps only direct children |
| Tree.InFieldOrderNoDup | src/spark_sql_generator/spark_sql_generator.py:543-546 | the first loop lists no child twice, and each child it lists is `parent.f` for some `f` of `field_order[parent]` |
| Tree.AddMissingProps | src/spark_sql_generator/spark_sql_generator.py:549-551 | the second loop adds no duplicate and leaves exactly the union of the ordered list and the direct children |
| Tree.OrderedChildren | src/spark_sql_generator/spark_sql_generator.py:537-555 | `_get_ordered_children`: field-order children, then the missing ones, stably sorted by `original_order`; stated by `Tree.OrderedChildrenSpec` |
| Tree.OrderedChildrenSpec | src/spark_sql_generator/spark_sql_generator.py:537-555 | `_get_ordered_children` lists every direct child exactly once (even when `_get_direct_children` listed an array twice). The result is sorted by `original_order` and is a stable sort of the list it built (the same multiset, the same relative order per key). Every child is a key under the parent |
| Tree.OrderedChildrenBelow | src/spark_sql_generator/spark_sql_generator.py:537-555 | every ordered child is a `path_data` key longer than its parent |
| Tree.MarkUnder | src/spark_sql_generator/spark_sql_generator.py:427-429 | the marking loop only adds to the processed set |
| Tree.MarkProcessed | src/spark_sql_generator/spark_sql_generator.py:423-429 | `_mark_processed(parent)`; stated by `Tree.MarkProcessedSpec` |
| Tree.MarkProcessedSpec | src/spark_sql_generator/spark_sql_generator.py:423-429 | after `_mark_processed(p)`, the set is the old set plus `p` plus exactly the keys starting with `p + "."` |
| Tree.MarkUnderSpec | src/spark_sql_generator/spark_sql_generator.py:427-429 | the loop adds exactly the listed keys, other than the parent, that start with `parent + "."` |
| Tree.MarkElementFields | src/spark_sql_generator/spark_sql_generator.py:518-521 | marking element paths only adds to the set |
| Tree.MarkChildren | src/spark_sql_generator/spark_sql_generator.py:515-521 | marking children only adds to the set |
| Tree.MarkElementFieldsSpec | src/spark_sql_generator/spark_sql_generator.py:518-521 | exactly the paths `child.element.f` for the recorded fields `f` are added |
| Tree.MarkProcessedTree | src/spark_sql_generator/spark_sql_generator.py:512-521 | `_mark_processed_tree(path, children)`: the path, then `Tree.MarkChildren`; stated by `Tree.MarkChildrenSpec` |
| Tree.MarkChildrenSpec | src/spark_sql_generator/spark_sql_generator.py:512-521 | `_mark_processed_tree` adds each child and each `c.element.f` for a recorded element field `f` of a child `c`, and nothing else |
| Tree.MarkPresent | src/spark_sql_generator/spark_sql_generator.py:950-952 | only indexed element paths of the table are added |
| Tree.MarkNested | src/spark_sql_generator/spark_sql_generator.py:954-961 | the nested-array loop only adds indexed paths; exactly which ones is stated by `Tree.MarkNestedCovers` and `Tree.MarkNestedWithin` |
| Tree.MarkNestedCovers | src/spark_sql_generator/spark_sql_generator.py:954-961 | every indexed element path of every listed nested array ends up marked |
| Tree.MarkNestedWithin | src/spark_sql_generator/spark_sql_generator.py:954-961 | nothing is marked but indexed element paths of the listed nested arrays |
| Tree.MarkArrayElements | src/spark_sql_generator/spark_sql_generator.py:947-961 | `_mark_array_elements_processed` only adds indexed paths to the set; exactly which ones is stated by `Tree.MarkArrayElementsCovers` and `Tree.MarkArrayElementsWithin` |
| Tree.MarkPresentCovers | src/spark_sql_generator/spark_sql_generator.py:950-952 | every indexed element path of the table ends up processed |
| Tree.MarkArrayElementsCovers | src/spark_sql_generator/spark_sql_generator.py:947-961 | after `_mark_array_elements_processed(path)`, every indexed element path recorded for `path`, and for each of its nested arrays, is processed |
| Tree.MarkArrayElementsWithin | src/spark_sql_generator/spark_sql_generator.py:947-961 | `_mark_array_elements_processed(path)` adds nothing else: every new path is an indexed element path of `path` or of one of its nested arrays |
| Render.StructContent | src/spark_sql_generator/spark_sql_generator.py:523-535 | `_format_struct_content`: the ordered children, one line each, joined with `",\n"`; stated by `Render.StructContentLines` |
| Render.StructChild | src/spark_sql_generator/spark_sql_generator.py:557-583 | `_format_struct_child`: an object, an array or a primitive line, `""` for an unindexed child; stated by `Render.StructChildStarts` |
| Render.ObjectField | src/spark_sql_generator/spark_sql_generator.py:585-594 | `_format_object_field`: `struct<` with the child body when the object has children and a non-blank body, `struct<>` otherwise; its line begins as `Render.StructChildStarts` states |
| Render.ArrayField | src/spark_sql_generator/spark_sql_generator.py:596-620 | `_format_array_field`: `array<arr_type>` for an array without element fields, else `array<struct<...>>` around a non-blank element body, else `array<arr_type or string>`; its line begins as `Render.StructChildStarts` states |
| Render.StructChildStarts | src/spark_sql_generator/spark_sql_generator.py:557-620 | a child's line begins with its indent, its last segment and `": "`, and an unindexed child gives `""` |
| Render.StructContentLines | src/spark_sql_generator/spark_sql_generator.py:523-555 | `_format_struct_content` joins exactly one line per ordered child, each child once and in `_get_ordered_children` order, the i-th line being that child's `_format_struct_child` and declaring it by name |
| Render.EntryStarts | src/spark_sql_generator/spark_sql_generator.py:582 | a struct-body line begins with its indent, its name and `": "` |
| Render.AddRegular | src/spark_sql_generator/spark_sql_generator.py:686-695 | adding the element fields keeps the field dict well formed |
| Render.AddNestedArrays | src/spark_sql_generator/spark_sql_generator.py:697-705 | adding the nested arrays keeps the field dict well formed |
| Render.CollectArrayFields | src/spark_sql_generator/spark_sql_generator.py:665-707 | `_collect_array_fields`: the nestedFields entry (filed under its name, `"id"` when it has none), then the element fields, then the nested arrays, a later one overwriting; stated by `Render.CollectArrayFieldsOk` and `Render.NestedFieldFirst` |
| Render.CollectArrayFieldsOk | src/spark_sql_generator/spark_sql_generator.py:665-707 | the collected fields form a well-formed dict whose regular entries name indexed paths longer than the array, whose only `nestedFields` entry is the array's own and is filed under its name, and whose other entries sort at 0 or later |
| Render.ArrayFieldNamesSpec | src/spark_sql_generator/spark_sql_generator.py:622-663 | the element body's field names are each collected name exactly once, a permutation of the collected names, sorted by recorded order |
| Render.NestedFieldFirst | src/spark_sql_generator/spark_sql_generator.py:665-707 | when the array's `nestedFields` entry survives in the dict (no later source reused its name), it is the first name of the element body |
| Render.ArrayStructContent | src/spark_sql_generator/spark_sql_generator.py:622-663 | `_format_array_struct_content`: the sorted collected names, one line each; stated by `Render.ArrayStructContentLines` |
| Render.FieldLine | src/spark_sql_generator/spark_sql_generator.py:642-661 | the three branches of the loop body (nestedFields entry, regular field, nested array); stated by `Render.FieldLineStarts` |
| Render.NestedFieldLine | src/spark_sql_generator/spark_sql_generator.py:709-713 | `_format_nestedfield`: the element type (an unknown one becomes `string`) and its comment; its line begins as `Render.FieldLineStarts` states |
| Render.RegularField | src/spark_sql_generator/spark_sql_generator.py:715-731 | `_format_regular_field`: an array, an object with children or a primitive line; its line begins as `Render.FieldLineStarts` states |
| Render.NestedArrayField | src/spark_sql_generator/spark_sql_generator.py:733-753 | `_format_nested_array_field`: `array<struct<...>>` around a non-blank nested body, `array<arr_type>` otherwise; its line begins as `Render.FieldLineStarts` states |
| Render.FieldLineStarts | src/spark_sql_generator/spark_sql_generator.py:622-663 | every element-body line begins with its indent and its field name |
| Render.FieldLinesSpec | src/spark_sql_generator/spark_sql_generator.py:637-661 | with distinct names, none handled yet, the loop gives exactly one line per name, the i-th declaring the i-th name |
| Render.FieldLinesStep | src/spark_sql_generator/spark_sql_generator.py:637-661 | a name already in `processed_fields` adds nothing; any other name adds its line and joins `processed_fields` |
| Render.ArrayStructContentLines | src/spark_sql_generator/spark_sql_generator.py:622-663 | `_format_array_struct_content` joins exactly one line per collected name with `",\n"`, in sorted order, and no name appears twice |
| Render.ChildLines | src/spark_sql_generator/spark_sql_generator.py:532-533 | one `_format_struct_child` line per ordered child, in order |
| Render.FirstWithPath | src/spark_sql_generator/spark_sql_generator.py:741-745 | the `for ... break` search finds the first input item with the path, or there is none |
| Render.NestedArrayFieldsEntry | src/spark_sql_generator/spark_sql_generator.py:776-802 | `_add_nested_array_fields` contributes at most one line |
| Render.ScanKeys | src/spark_sql_generator/spark_sql_generator.py:809-823 | the path scan builds a well-formed dict |
| Render.PathScan | src/spark_sql_generator/spark_sql_generator.py:808-823 | the `element_fields` dict of the path scan is well formed |
| Render.EmitFlat | src/spark_sql_generator/spark_sql_generator.py:826-843 | one element field of a nested array, emitted unless its name was already emitted or its path is not indexed; stated by `Render.EmitFlatOk` |
| Render.EmitAll | src/spark_sql_generator/spark_sql_generator.py:804-869 | the emitting loop over an element table; stated by `Render.EmitAllOk` |
| Render.EmitFlatOk | src/spark_sql_generator/spark_sql_generator.py:826-843 | emitting one element field keeps every line declaring its own name and no name twice, and only appends |
| Render.EmitAllOk | src/spark_sql_generator/spark_sql_generator.py:804-869 | the emitting loops of the scan and the mapping keep that property and only append |
| Render.NestedArrayContent | src/spark_sql_generator/spark_sql_generator.py:755-774 | `_format_nested_array_content`: the nestedFields line, the path-scan lines and the mapping lines, joined; stated by `Render.NestedArrayEntriesSpec` |
| Render.NestedArrayEntriesSpec | src/spark_sql_generator/spark_sql_generator.py:755-802 | `_format_nested_array_content` emits each element field name at most once, each line declares its name, and the nested array's `nestedFields` line, if any, comes first |
| Renderer.GetDirectChildren | src/spark_sql_generator/spark_sql_generator.py:431-455 | the accumulator loop returns exactly the direct children the `Tree` function defines |
| Renderer.AddDirectChildIfMatched | src/spark_sql_generator/spark_sql_generator.py:457-481 | the three cases extend the list as the `Tree` function says: a key with no further dot always, an array or a first-level child only when indexed and not yet listed (so an array reached first through its element path is listed again as a plain key) |
| Renderer.GetOrderedChildren | src/spark_sql_generator/spark_sql_generator.py:537-555 | the two loops and the sort return exactly the ordered children |
| Renderer.FormatStructContent | src/spark_sql_generator/spark_sql_generator.py:523-535 | the struct body equals the `Render` struct content |
| Renderer.StructChildLines | src/spark_sql_generator/spark_sql_generator.py:532-533 | one child line per ordered child, in order |
| Renderer.FormatArrayStructContent | src/spark_sql_generator/spark_sql_generator.py:622-663 | the element body equals the `Render` array struct content |
| Renderer.EmitArrayStructFields | src/spark_sql_generator/spark_sql_generator.py:637-661 | the loop gives exactly the lines of `FieldLines` from an empty `processed_fields` |
| Renderer.EmitArrayStructField | src/spark_sql_generator/spark_sql_generator.py:637-661 | one turn of the loop keeps the emitted lines plus the lines still to come unchanged |
| Renderer.CollectArrayFields | src/spark_sql_generator/spark_sql_generator.py:665-707 | the field dict equals the `Render` collected fields, with later sources overwriting earlier ones |
| Renderer.AddElementTable | src/spark_sql_generator/spark_sql_generator.py:686-695 | the element-field loop adds the table's entries in key order |
| Renderer.AddNestedArrayPaths | src/spark_sql_generator/spark_sql_generator.py:697-705 | the nested-array loop adds each nested array under its last segment |
| Renderer.FindArrayDef | src/spark_sql_generator/spark_sql_generator.py:741-745 | the search returns the first input item with the path |
| Renderer.FormatNestedArrayContent | src/spark_sql_generator/spark_sql_generator.py:755-774 | the nested-array body equals the `Render` nested array content |
| Renderer.AddNestedArrayFields | src/spark_sql_generator/spark_sql_generator.py:776-802 | the lines and the name set are extended by exactly the `nestedFields` entry |
| Renderer.EmitElementFields | src/spark_sql_generator/spark_sql_generator.py:826-869 | the lines and the name set are extended by exactly `EmitAll` of the table |
| Renderer.AddElementFieldsFromPathScan | src/spark_sql_generator/spark_sql_generator.py:804-843 | the lines are extended by the path-scan entries not yet emitted |
| Renderer.AddElementFieldsFromMapping | src/spark_sql_generator/spark_sql_generator.py:845-869 | the lines are extended by the mapping's entries not yet emitted, or left unchanged when the array has no element table |
| Passes.FormatStruct | src/spark_sql_generator/spark_sql_generator.py:483-510 | `_format_struct` returns `None` exactly when the path was already processed; otherwise it marks the path and every direct child; the set only grows |
| Passes.DottedArray | src/spark_sql_generator/spark_sql_generator.py:926-945 | `_format_dotted_array` only grows the processed set; when it emits an element body, every indexed element path of the array and of its nested arrays is marked, and otherwise the set is unchanged |
| Passes.SweepSkipsMarkedElements | src/spark_sql_generator/spark_sql_generator.py:232-242 | once an array's element paths are marked, the sweep never sees an indexed element path of that array or of its nested arrays |
| Passes.DottedObject | src/spark_sql_generator/spark_sql_generator.py:918-924 | `_format_dotted_object`: `struct<` with the body when the path has children and a non-blank body, `struct<>` otherwise; the method `Generator.OrderPreservingGenerator.FormatDottedObject` is proved equal to it |
| Passes.DottedPath | src/spark_sql_generator/spark_sql_generator.py:871-916 | `_format_dotted_path` only grows the processed set, and leaves it unchanged when it returns `None` |
| Passes.TopLevelStep | src/spark_sql_generator/spark_sql_generator.py:192-209 | one top-level item grows the set and appends at most one definition |
| Passes.TopLevelPass | src/spark_sql_generator/spark_sql_generator.py:188-211 | the top-level pass grows the set and appends at most one definition per item |
| Passes.RemainingItems | src/spark_sql_generator/spark_sql_generator.py:232-242 | the remaining items are exactly the input items that are neither processed nor under a processed path |
| Passes.RemainingPass | src/spark_sql_generator/spark_sql_generator.py:223-228 | the sweep grows the set and appends at most one definition per item |
| Passes.AddStatement | src/spark_sql_generator/spark_sql_generator.py:178-186 | the statement starts with the ADD header, and it is the empty `ADD COLUMNS ()` literal exactly when there are no definitions |
| Passes.DottedPathSkipsProcessedParent | src/spark_sql_generator/spark_sql_generator.py:882-887 | a path with a processed proper prefix gives `None` and changes nothing |
| Passes.DottedPathSkipsHandledElement | src/spark_sql_generator/spark_sql_generator.py:876-879 | an element path that is processed, or whose array is, gives `None` and changes nothing |
| Passes.SweepSkipsMarkedTree | src/spark_sql_generator/spark_sql_generator.py:232-242 | once `_mark_processed(p)` has run, the sweep never sees `p` or a path under it, so a struct is not emitted twice |
| Passes.RemainingSorted | src/spark_sql_generator/spark_sql_generator.py:218-221 | the sorted remaining items are ordered by `original_order`, are a permutation of the remaining items, and are all unprocessed input items not under a processed path |
| Passes.InputPathsAreKeys | src/spark_sql_generator/spark_sql_generator.py:352 | every input path is a `path_data` key |
| Passes.Definitions | src/spark_sql_generator/spark_sql_generator.py:174-176 | the top-level pass, then the sweep over the stably sorted remaining items, from an empty processed set; stated by `Passes.TopLevelPass`, `Passes.RemainingSorted` and `Passes.RemainingPass` |
| Passes.GenerateAdd | src/spark_sql_generator/spark_sql_generator.py:170-186 | `OrderPreservingGenerator(input).generate_sql()`; stated by `Passes.GenerateAddEmpty` and `Passes.AddStatement` |
| Passes.GenerateAddEmpty | src/spark_sql_generator/spark_sql_generator.py:170-186 | the generator returns the empty ADD literal exactly when the two passes produce no definition |
| Generator.OrderPreservingGenerator.constructor | src/spark_sql_generator/spark_sql_generator.py:155-168 | all tables empty, nothing processed |
| Generator.OrderPreservingGenerator.PreprocessInput | src/spark_sql_generator/spark_sql_generator.py:330-337 | `original_order` and every per-path table equal the `PathIndex` functions of the whole input |
| Generator.OrderPreservingGenerator.TrackOriginalOrder | src/spark_sql_generator/spark_sql_generator.py:339-343 | `original_order` is the last-index map of the input |
| Generator.OrderPreservingGenerator.ProcessPathItems | src/spark_sql_generator/spark_sql_generator.py:345-362 | every per-path table is built from the whole input |
| Generator.OrderPreservingGenerator.ProcessPathItem | src/spark_sql_generator/spark_sql_generator.py:347-362 | one loop turn extends every table from the first `i` items to the first `i+1` |
| Generator.OrderPreservingGenerator.ProcessPathFields | src/spark_sql_generator/spark_sql_generator.py:360-362 | the three per-item updates extend their tables by one item |
| Generator.OrderPreservingGenerator.StorePathItem | src/spark_sql_generator/spark_sql_generator.py:352 | `path_data` goes from the first `i` items to the first `i+1` |
| Generator.OrderPreservingGenerator.TrackTopLevel | src/spark_sql_generator/spark_sql_generator.py:355-358 | `top_level_paths` and `top_level_items` go from the first `i` items to the first `i+1` |
| Generator.OrderPreservingGenerator.ProcessArrayNestedFields | src/spark_sql_generator/spark_sql_generator.py:364-373 | `array_nested_fields` extended by one item |
| Generator.OrderPreservingGenerator.ProcessElementPathFields | src/spark_sql_generator/spark_sql_generator.py:375-394 | `element_fields` and `element_field_order` extended by one item, equal to each other |
| Generator.OrderPreservingGenerator.BuildFieldOrderHierarchy | src/spark_sql_generator/spark_sql_generator.py:396-406 | `field_order` extended by every level of one more path |
| Generator.OrderPreservingGenerator.ProcessArrayElements | src/spark_sql_generator/spark_sql_generator.py:253-268 | `array_element_fields` and `nested_arrays` are the tables built from the element paths, outer arrays first |
| Generator.OrderPreservingGenerator.ProcessElementPath | src/spark_sql_generator/spark_sql_generator.py:270-284 | one element path updates the tables as the `PathIndex` step does |
| Generator.OrderPreservingGenerator.ProcessMultilevelElementPath | src/spark_sql_generator/spark_sql_generator.py:286-318 | the multi-level case updates the tables as the `PathIndex` step does |
| Generator.OrderPreservingGenerator.ProcessSimpleElementPath | src/spark_sql_generator/spark_sql_generator.py:320-328 | the one-level case updates the tables as the `PathIndex` step does |
| Generator.OrderPreservingGenerator.MarkProcessed | src/spark_sql_generator/spark_sql_generator.py:423-429 | the processed set becomes the `Tree` marking of the path and every key under it |
| Generator.OrderPreservingGenerator.MarkProcessedTree | src/spark_sql_generator/spark_sql_generator.py:512-521 | the processed set becomes the `Tree` marking of the path, its children and their element paths |
| Generator.OrderPreservingGenerator.MarkElementPaths | src/spark_sql_generator/spark_sql_generator.py:950-952 | the indexed element paths of one table are marked |
| Generator.OrderPreservingGenerator.MarkArrayElementsProcessed | src/spark_sql_generator/spark_sql_generator.py:947-961 | the processed set becomes the `Tree` marking of the array's element paths and its nested arrays' ones |
| Generator.OrderPreservingGenerator.FormatStruct | src/spark_sql_generator/spark_sql_generator.py:483-510 | result and new processed set equal `Passes.FormatStruct` of the old state |
| Generator.OrderPreservingGenerator.FormatNewStruct | src/spark_sql_generator/spark_sql_generator.py:488-510 | the same, for a path not yet processed |
| Generator.OrderPreservingGenerator.FormatParentStruct | src/spark_sql_generator/spark_sql_generator.py:500-510 | the definition wraps the struct content in `struct<\n ... \n    >` with comment and clause, and the tree is marked |
| Generator.OrderPreservingGenerator.FormatDottedPath | src/spark_sql_generator/spark_sql_generator.py:871-916 | result and new processed set equal `Passes.DottedPath` of the old state |
| Generator.OrderPreservingGenerator.FormatDottedObject | src/spark_sql_generator/spark_sql_generator.py:918-924 | the text equals `Passes.DottedObject` |
| Generator.OrderPreservingGenerator.FormatDottedArray | src/spark_sql_generator/spark_sql_generator.py:926-945 | text and new processed set equal `Passes.DottedArray` of the old state |
| Generator.OrderPreservingGenerator.ProcessTopLevelItems | src/spark_sql_generator/spark_sql_generator.py:188-211 | definitions and new processed set equal the top-level pass over `top_level_items` |
| Generator.OrderPreservingGenerator.ProcessTopLevelItem | src/spark_sql_generator/spark_sql_generator.py:192-209 | one loop turn extends the pass by one item |
| Generator.OrderPreservingGenerator.ProcessTopLevelStep | src/spark_sql_generator/spark_sql_generator.py:193-209 | one item is handled as `Passes.TopLevelStep` says |
| Generator.OrderPreservingGenerator.ProcessTopLevelStruct | src/spark_sql_generator/spark_sql_generator.py:199-204 | an object with children gives its struct, then its whole key tree is marked |
| Generator.OrderPreservingGenerator.GetRemainingItems | src/spark_sql_generator/spark_sql_generator.py:232-242 | returns exactly `Passes.RemainingItems` of the current set |
| Generator.OrderPreservingGenerator.ProcessRemainingItems | src/spark_sql_generator/spark_sql_generator.py:213-230 | definitions and new set equal the sweep over the remaining items, stably sorted by `original_order` |
| Generator.OrderPreservingGenerator.ProcessSortedItems | src/spark_sql_generator/spark_sql_generator.py:223-228 | the loop over the sorted items equals `Passes.RemainingPass` |
| Generator.OrderPreservingGenerator.ProcessRemainingItem | src/spark_sql_generator/spark_sql_generator.py:224-228 | one loop turn extends the sweep by one item |
| Generator.OrderPreservingGenerator.GenerateSql | src/spark_sql_generator/spark_sql_generator.py:170-186 | the returned statement equals `Passes.GenerateAdd` of the input |
| PathHandlers.PathHandler.constructor | src/spark_sql_generator/spark_sql_generator.py:114-116 | both fields empty |
| PathHandlers.PathHandler.MarkProcessed | src/spark_sql_generator/spark_sql_generator.py:121-122 | the set gains exactly the path |
| PathHandlers.PathHandler.IsChildOfProcessedPath | src/spark_sql_generator/spark_sql_generator.py:124-131 | true exactly when the path extends a processed path by a dot |
| PathHandlers.PathHandler.MarkTreeProcessed | src/spark_sql_generator/spark_sql_generator.py:133-139 | the set gains the parent and exactly the keys starting with `parent + "."`, and nothing else |
| PathHandlers.PathHandler.HasChildren | src/spark_sql_generator/spark_sql_generator.py:141-147 | true exactly when marking the parent's tree would mark more than the parent |
| PathHandlers.MarkedTreeCoversDescendants | src/spark_sql_generator/spark_sql_generator.py:124-139 | after the tree of `p` is marked, every path under `p` is a child of a processed path |
| ColumnGenerator.DropStatement | src/spark_sql_generator/spark_sql_generator.py:45-52 | the REMOVE template; `ColumnGenerator.DropStatementRoundTrip` states that it determines the dropped path |
| ColumnGenerator.RenameStatement | src/spark_sql_generator/spark_sql_generator.py:54-63 | the MOVE template; stated by `ColumnGenerator.OnePerEntry` and `ColumnGenerator.ReplaceNameIsMove` |
| ColumnGenerator.ReorderStatement | src/spark_sql_generator/spark_sql_generator.py:65-80 | the REORDER template, `FIRST` or `AFTER` the entry's value path; stated by `ColumnGenerator.OnePerEntry` |
| ColumnGenerator.GroupStatements | src/spark_sql_generator/spark_sql_generator.py:36-106 | the dispatch on the operation tag; stated by `ColumnGenerator.AddYieldsOne`, `ColumnGenerator.OnePerEntry`, `ColumnGenerator.ReplaceOnePerKnownTarget` and `ColumnGenerator.UnknownOperationYieldsNone` |
| ColumnGenerator.AllStatements | src/spark_sql_generator/spark_sql_generator.py:34-108 | every group's statements in group order; stated by `ColumnGenerator.AllStatementsAppend` and `ColumnGenerator.AllStatementsSnoc`, and the method `ColumnGenerator.GenerateSql` is proved equal to it |
| ColumnGenerator.ReplaceStatement | src/spark_sql_generator/spark_sql_generator.py:82-106 | a REPLACE entry gives a statement exactly when its `target_field` is description, comment, type or name |
| ColumnGenerator.Replaces | src/spark_sql_generator/spark_sql_generator.py:82-106 | REPLACE gives at most one statement per entry |
| ColumnGenerator.PerGroup | src/spark_sql_generator/spark_sql_generator.py:36-106 | one statement list per group |
| ColumnGenerator.KnownEntries | src/spark_sql_generator/spark_sql_generator.py:84-106 | exactly the entries with a recognised target |
| ColumnGenerator.GenerateSql | src/spark_sql_generator/spark_sql_generator.py:34-108 | the statements are every group's statements, in group order |
| ColumnGenerator.GroupSql | src/spark_sql_generator/spark_sql_generator.py:36-106 | one group gives exactly `GroupStatements` (ADD runs a fresh `OrderPreservingGenerator`) |
| ColumnGenerator.DropStatements | src/spark_sql_generator/spark_sql_generator.py:45-52 | the REMOVE loop gives exactly `Drops` |
| ColumnGenerator.MoveStatements | src/spark_sql_generator/spark_sql_generator.py:54-63 | the MOVE loop gives exactly `Moves` |
| ColumnGenerator.ReorderStatements | src/spark_sql_generator/spark_sql_generator.py:65-80 | the REORDER loop gives exactly `Reorders` |
| ColumnGenerator.ReplaceStatements | src/spark_sql_generator/spark_sql_generator.py:82-106 | the REPLACE loop gives exactly `Replaces` |
| ColumnGenerator.AddYieldsOne | src/spark_sql_generator/spark_sql_generator.py:40-43 | an ADD group gives exactly one statement, and it is the empty `ADD COLUMNS ()` literal exactly when no definition is produced |
| ColumnGenerator.OnePerEntry | src/spark_sql_generator/spark_sql_generator.py:45-80 | REMOVE, MOVE and REORDER give exactly one statement per entry, the i-th starting with its template head and the i-th entry's formatted path |
| ColumnGenerator.UnknownOperationYieldsNone | src/spark_sql_generator/spark_sql_generator.py:38-106 | an unrecognised operation tag gives no statement |
| ColumnGenerator.ReplaceOnePerKnownTarget | src/spark_sql_generator/spark_sql_generator.py:82-106 | REPLACE gives exactly one statement per entry with a recognised target, in entry order |
| ColumnGenerator.ReplaceUnknownTargetsYieldNone | src/spark_sql_generator/spark_sql_generator.py:82-106 | a REPLACE group whose targets are all unrecognised gives nothing |
| ColumnGenerator.ReplaceNameIsMove | src/spark_sql_generator/spark_sql_generator.py:100-106 | a REPLACE of the name is the same statement as a MOVE of that entry |
| ColumnGenerator.DropStatementRoundTrip | src/spark_sql_generator/spark_sql_generator.py:45-52 | the dropped column is recovered by unquoting what follows the fixed DROP head |
| ColumnGenerator.AllStatementsAppend | src/spark_sql_generator/spark_sql_generator.py:36-108 | the statements of consecutive runs of groups concatenate |
| ColumnGenerator.AllStatementsSnoc | src/spark_sql_generator/spark_sql_generator.py:36-108 | one more group appends exactly its own statements |
| Collections.SortBy | src/spark_sql_generator/spark_sql_generator.py:221 | `sorted(..., key=...)` and `list.sort(key=...)`, as an insertion sort; stated by `Collections.SortByStable` |
| Collections.SortByStable | src/spark_sql_generator/spark_sql_generator.py:221 | the result is sorted by the key, is a permutation of the input, and keeps the input order among equal keys, as Python's stable sort does |
| Collections.PutAll | src/spark_sql_generator/spark_sql_generator.py:352 | a dict built by assigning each (key, value) pair in turn; stated by `Collections.PutAllOrderAndLastWrite` |
| Collections.PutAllOrderAndLastWrite | src/spark_sql_generator/spark_sql_generator.py:352 | the keys are the distinct keys in first-assignment order, and each holds the value of its last assignment |

## Left out

- The `helper` module (`spark_ddl_types`, `get_property_description`) is not part of this model. It is the `Helper` parameter: a type-name map (`.get(t, t)` lets unknown names pass through) and an uninterpreted function from a doc string to its comment literal. `format_comment` is that function with `COMMENT ` in front, and the exact literal is not modelled.
- The 999999 fallback of `original_order.get(..., 999999)` is the input length. That is larger than every real index, which is all the sort relies on.
- `Schema.NestedField`: each of `name`, `type` and `doc` may be absent. `_collect_array_fields` files a nestedFields element without a name under `"id"` (`Schema.FieldName`), as the code does. `_add_nested_array_fields` reads `nf["name"]` and raises `KeyError` for such an element; the model (`Render.NestedArrayFieldsEntry`) emits no line there instead, so that crash is not modelled.
- `Schema.Descriptor`: every value is a string or absent. A key that is present but holds `None` or a non-string (which the source would render, e.g. as `` AFTER `None` `` or `array<None>`) cannot be expressed; such a key behaves as an absent one here.
- A missing `path` or `value` key raises `KeyError` in the source. Descriptors and entries always carry both here. A `columns` list whose shape does not fit the operation (`ShapeOk`) would fail in the source with a Python type error, so it is excluded by a precondition.
- Unknown operation tags and unknown REPLACE targets are dropped silently, as the code does. They are not turned into errors.
- The `Render` formatters take the index and the processed set as values. In the source they are methods that read `self`, and `_format_dotted_array` and `_format_struct` also write `processed_paths`. That writing goes through the `Generator` methods, which are proved against the same functions. The recursive formatters themselves are not written as methods, so the model does not capture them updating fields in place while recursing.
- `_preprocess_input` creates `top_level_paths` as a local set and passes it in. The model threads it through `ProcessPathItem` as a returned value instead of mutating it in place.
- The `for` loop of `_format_dotted_path` over proper prefixes (looking for a processed parent or a struct parent) is modelled by the predicates `Tree.SomeProperPrefixIn` and `Passes.SomeStructParent`. These are not methods.
- `Generator.OrderPreservingGenerator.GenerateSql`: requires a freshly constructed generator. Calling it twice on one object would reuse the tables built by the first run, and `SQLColumnGenerator` never does that.
- `PathHandler.path_data` is never filled by the source. The model keeps the field, and its methods are stated for whatever it holds.
- Python dicts are modelled only by insertion order and last-write-wins assignment.
- Behaviours the model keeps exactly as the code has them:
  - A later source in `_collect_array_fields` overwrites an earlier field of the same name. The first one is not kept.
  - The `nestedFields` entry comes first only while it survives that overwriting.
  - `_mark_processed_tree` marks the children and their recorded element paths, not every descendant.
  - Unknown operations and REPLACE targets produce nothing, not an error.
