/**
 * `OrderPreservingGenerator` as a class: the fields its methods update, and the
 * methods that update them. Each method is proved to leave the fields (or return)
 * exactly what the matching function of the indexing, tree, rendering or pass
 * modules computes, so the properties proved there hold of the generator.
 */
module Generator {
  import opened Wrappers
  import opened Strings
  import opened Collections
  import opened Schema
  import opened Formatter
  import opened PathIndex
  import Tree
  import Render
  import Passes
  import Renderer

  class OrderPreservingGenerator {
    const input: seq<Descriptor>
    const helper: Helper
    var processed: set<string>
    var fieldOrder: map<string, seq<string>>
    var elementFields: map<string, seq<string>>
    var elementFieldOrder: map<string, seq<string>>
    var arrayElementFields: map<string, Dict<string, string>>
    var pathData: Dict<string, Descriptor>
    var topLevelItems: seq<Descriptor>
    var nestedArrays: map<string, seq<string>>
    var originalOrder: map<string, nat>
    var arrayNestedFields: map<string, NestedField>

    /** The lookup structures as one value, for the functions that specify the methods. */
    function Ix(): Index
      reads this`originalOrder, this`pathData, this`topLevelItems, this`arrayNestedFields, this`elementFields,
        this`elementFieldOrder, this`fieldOrder, this`arrayElementFields, this`nestedArrays
    {
      Index(helper, input, originalOrder, pathData, topLevelItems, arrayNestedFields,
        elementFields, elementFieldOrder, fieldOrder, arrayElementFields, nestedArrays)
    }

    /** The state `__init__` leaves: nothing indexed, nothing processed. */
    ghost predicate Fresh()
      reads this
    {
      processed == {} && fieldOrder == map[] && elementFields == map[] && elementFieldOrder == map[] &&
      arrayElementFields == map[] && pathData == EmptyDict() && topLevelItems == [] &&
      nestedArrays == map[] && originalOrder == map[] && arrayNestedFields == map[]
    }

    constructor (input: seq<Descriptor>, helper: Helper)
      ensures this.input == input && this.helper == helper && Fresh()
    {
      this.input := input;
      this.helper := helper;
      processed := {};
      fieldOrder := map[];
      elementFields := map[];
      elementFieldOrder := map[];
      arrayElementFields := map[];
      pathData := EmptyDict();
      topLevelItems := [];
      nestedArrays := map[];
      originalOrder := map[];
      arrayNestedFields := map[];
    }

    // ------------------------------------------------------------------
    // Indexing
    // ------------------------------------------------------------------

    /** What `_process_path_items` leaves: every per-path table built from the whole input. */
    ghost predicate PathsIndexed()
      reads this`pathData, this`topLevelItems, this`arrayNestedFields, this`elementFields,
        this`elementFieldOrder, this`fieldOrder
    {
      pathData == PathDataOf(input) && topLevelItems == TopLevelOf(input) &&
      arrayNestedFields == ArrayNestedFieldsOf(input) &&
      elementFields == ElementFieldsOf(input) && elementFieldOrder == ElementFieldsOf(input) &&
      fieldOrder == FieldOrderOf(input)
    }

    /** `_preprocess_input` */
    method PreprocessInput()
      requires Fresh()
      modifies this`originalOrder, this`pathData, this`topLevelItems, this`arrayNestedFields,
        this`elementFields, this`elementFieldOrder, this`fieldOrder
      ensures originalOrder == OriginalOrderOf(input) && PathsIndexed()
    {
      var topLevelPaths: set<string> := {};
      arrayNestedFields := map[];
      elementFieldOrder := map[];
      TrackOriginalOrder();
      ProcessPathItems(topLevelPaths);
    }

    /** `_track_original_order` */
    method TrackOriginalOrder()
      requires originalOrder == map[]
      modifies this`originalOrder
      ensures originalOrder == OriginalOrderOf(input)
    {
      for i := 0 to |input|
        invariant originalOrder == OriginalOrderOf(input[..i])
      {
        assert input[..i + 1][..i] == input[..i];
        originalOrder := originalOrder[input[i].path := i];
      }
      assert input[..|input|] == input;
    }

    /** The tables `_process_path_items` has built after its first `n` items. */
    ghost predicate IndexedThrough(n: nat, topLevelPaths: set<string>)
      requires n <= |input|
      reads this`pathData, this`topLevelItems, this`arrayNestedFields, this`elementFields,
        this`elementFieldOrder, this`fieldOrder
    {
      pathData == PathDataOf(input[..n]) && topLevelPaths == HeadSet(input[..n]) && topLevelItems == TopLevelOf(input[..n]) &&
      FieldTablesThrough(n)
    }

    /** The tables the three per-item updates have built after the first `n` items. */
    ghost predicate FieldTablesThrough(n: nat)
      requires n <= |input|
      reads this`arrayNestedFields, this`elementFields, this`elementFieldOrder, this`fieldOrder
    {
      arrayNestedFields == ArrayNestedFieldsOf(input[..n]) &&
      elementFields == ElementFieldsOf(input[..n]) && elementFieldOrder == ElementFieldsOf(input[..n]) &&
      fieldOrder == FieldOrderOf(input[..n])
    }

    /** The tables `_process_path_items` fills, before it starts. */
    ghost predicate PathTablesEmpty()
      reads this`pathData, this`topLevelItems, this`arrayNestedFields, this`elementFields,
        this`elementFieldOrder, this`fieldOrder
    {
      pathData == EmptyDict() && topLevelItems == [] && arrayNestedFields == map[] &&
      elementFields == map[] && elementFieldOrder == map[] && fieldOrder == map[]
    }

    /** `_process_path_items`, with `top_level_paths` as it comes from `_preprocess_input`. */
    method ProcessPathItems(topLevelPaths0: set<string>)
      requires topLevelPaths0 == {} && PathTablesEmpty()
      modifies this`pathData, this`topLevelItems, this`arrayNestedFields, this`elementFields,
        this`elementFieldOrder, this`fieldOrder
      ensures PathsIndexed()
    {
      var topLevelPaths := topLevelPaths0;
      assert input[..0] == [];
      for i := 0 to |input|
        invariant IndexedThrough(i, topLevelPaths)
      {
        topLevelPaths := ProcessPathItem(i, topLevelPaths);
      }
      assert input[..|input|] == input;
    }

    /** The body of the `_process_path_items` loop for the `i`-th input item. */
    method ProcessPathItem(i: nat, topLevelPaths: set<string>) returns (paths: set<string>)
      requires i < |input| && IndexedThrough(i, topLevelPaths)
      modifies this`pathData, this`topLevelItems, this`arrayNestedFields, this`elementFields,
        this`elementFieldOrder, this`fieldOrder
      ensures IndexedThrough(i + 1, paths)
    {
      var item := input[i];
      var path := item.path;
      var parts := Split(path, ".");
      StorePathItem(item, path, i);
      paths := TrackTopLevel(topLevelPaths, item, parts, i);
      ProcessPathFields(item, path, parts, i);
    }

    /** The three per-item table updates that end the `_process_path_items` loop body. */
    method ProcessPathFields(item: Descriptor, path: string, parts: seq<string>, ghost i: nat)
      requires i < |input| && item == input[i] && path == item.path && parts == Split(path, ".")
      requires FieldTablesThrough(i)
      modifies this`arrayNestedFields, this`elementFields, this`elementFieldOrder, this`fieldOrder
      ensures FieldTablesThrough(i + 1)
    {
      ProcessArrayNestedFields(item, path, i);
      ProcessElementPathFields(path, parts, i);
      BuildFieldOrderHierarchy(parts, i);
    }

    /** `self.path_data[path] = item` for the `i`-th input item. */
    method StorePathItem(item: Descriptor, path: string, ghost i: nat)
      requires i < |input| && item == input[i] && path == item.path
      requires pathData == PathDataOf(input[..i])
      modifies this`pathData
      ensures pathData == PathDataOf(input[..i + 1])
    {
      PathDataSnoc(input, i);
      pathData := pathData.Put(path, item);
    }

    /** The first item under each new top-level segment joins `top_level_items`. */
    method TrackTopLevel(topLevelPaths: set<string>, item: Descriptor, parts: seq<string>, ghost i: nat)
      returns (paths: set<string>)
      requires i < |input| && item == input[i] && parts == Split(item.path, ".")
      requires topLevelPaths == HeadSet(input[..i]) && topLevelItems == TopLevelOf(input[..i])
      modifies this`topLevelItems
      ensures paths == HeadSet(input[..i + 1]) && topLevelItems == TopLevelOf(input[..i + 1])
    {
      TopLevelAt(input, i);
      paths := topLevelPaths;
      var topLevel := parts[0];
      if topLevel !in paths {
        paths := paths + {topLevel};
        topLevelItems := topLevelItems + [item];
      }
    }

    /** `_process_array_nested_fields` for the `i`-th input item. */
    method ProcessArrayNestedFields(item: Descriptor, path: string, ghost i: nat)
      requires i < |input| && item == input[i] && path == item.path
      requires arrayNestedFields == ArrayNestedFieldsOf(input[..i])
      modifies this`arrayNestedFields
      ensures arrayNestedFields == ArrayNestedFieldsOf(input[..i + 1])
    {
      assert input[..i + 1][..i] == input[..i];
      if item.kind == "array" && item.nestedFields.Some? {
        arrayNestedFields := arrayNestedFields[path := item.nestedFields.value];
      }
    }

    /**
     * `_process_element_path_fields` for the `i`-th input item: both lists of its
     * array path gain its first element field, once.
     */
    method ProcessElementPathFields(path: string, parts: seq<string>, ghost i: nat)
      requires i < |input| && path == input[i].path
      requires elementFields == ElementFieldsOf(input[..i]) && elementFieldOrder == ElementFieldsOf(input[..i])
      modifies this`elementFields, this`elementFieldOrder
      ensures elementFields == ElementFieldsOf(input[..i + 1]) && elementFieldOrder == ElementFieldsOf(input[..i + 1])
    {
      ghost var pre := ElementPairs(input[..i]);
      assert input[..i + 1][..i] == input[..i];
      assert ElementPairs(input[..i + 1]) == pre + (if Contains(path, Marker) then [SplitElementPath(path)] else []);
      if Contains(path, Marker) {
        var (arrayPath, elementField) := SplitElementPath(path);
        GroupSnoc(pre, (arrayPath, elementField));
        AddUnderInPlace(elementFields, arrayPath, elementField);
        if arrayPath !in elementFields {
          elementFields := elementFields[arrayPath := []];
        }
        if arrayPath !in elementFieldOrder {
          elementFieldOrder := elementFieldOrder[arrayPath := []];
        }
        if elementField !in elementFields[arrayPath] {
          elementFields := elementFields[arrayPath := elementFields[arrayPath] + [elementField]];
        }
        if elementField !in elementFieldOrder[arrayPath] {
          elementFieldOrder := elementFieldOrder[arrayPath := elementFieldOrder[arrayPath] + [elementField]];
        }
      } else {
        assert pre + [] == pre;
      }
    }

    /**
     * `_build_field_order_hierarchy` for the segments of the `i`-th input path: every
     * (parent, segment) level, in turn.
     */
    method BuildFieldOrderHierarchy(parts: seq<string>, ghost i: nat)
      requires i < |input| && parts == Split(input[i].path, ".")
      requires fieldOrder == FieldOrderOf(input[..i])
      modifies this`fieldOrder
      ensures fieldOrder == FieldOrderOf(input[..i + 1])
    {
      ghost var pre := HierarchyPairs(input[..i]);
      assert input[..i + 1][..i] == input[..i];
      assert HierarchyPairs(input[..i + 1]) == pre + LevelPairs(parts, |parts|);
      assert pre + LevelPairs(parts, 0) == pre;
      for j := 0 to |parts|
        invariant fieldOrder == Group(pre + LevelPairs(parts, j))
      {
        var parent := if j > 0 then Join(".", parts[..j]) else "";
        var field := parts[j];
        AddUnderInPlace(fieldOrder, parent, field);
        if parent !in fieldOrder {
          fieldOrder := fieldOrder[parent := []];
        }
        if field !in fieldOrder[parent] {
          fieldOrder := fieldOrder[parent := fieldOrder[parent] + [field]];
        }
        LevelPairsStep(pre, parts, j);
        GroupSnoc(pre + LevelPairs(parts, j), (parent, field));
      }
    }

    /** `_process_array_elements`: element paths, outer arrays first, each processed in turn. */
    method ProcessArrayElements()
      modifies this`arrayElementFields, this`nestedArrays
      ensures Tables(arrayElementFields, nestedArrays) == ArrayTablesOf(pathData.keys)
    {
      arrayElementFields := map[];
      nestedArrays := map[];
      var elementPaths := ElementPaths(pathData.keys);
      elementPaths := SortBy(elementPaths, Nesting);
      for i := 0 to |elementPaths|
        invariant Tables(arrayElementFields, nestedArrays) == ArrayElementsOf(elementPaths[..i])
      {
        assert elementPaths[..i + 1][..i] == elementPaths[..i];
        ProcessElementPath(elementPaths[i]);
      }
      assert elementPaths[..|elementPaths|] == elementPaths;
    }

    /** `_process_element_path` */
    method ProcessElementPath(path: string)
      modifies this`arrayElementFields, this`nestedArrays
      ensures Tables(arrayElementFields, nestedArrays) == ElementPathStep(old(Tables(arrayElementFields, nestedArrays)), path)
    {
      var segments := Split(path, Marker);
      var basePath := segments[0];
      if basePath !in arrayElementFields {
        arrayElementFields := arrayElementFields[basePath := EmptyDict()];
      }
      if |segments| > 2 {
        ProcessMultilevelElementPath(path, segments, basePath);
      } else if |segments| == 2 {
        ProcessSimpleElementPath(path, segments, basePath);
      }
    }

    /** `_process_multilevel_element_path` */
    method ProcessMultilevelElementPath(path: string, segments: seq<string>, basePath: string)
      requires |segments| > 2
      modifies this`arrayElementFields, this`nestedArrays
      ensures Tables(arrayElementFields, nestedArrays) ==
        MultilevelStep(old(Tables(arrayElementFields, nestedArrays)), path, segments, basePath)
    {
      var firstElement := SplitOnce(segments[1], ".");
      var firstField := firstElement[0];
      var nestedArrayPath := basePath + Marker + firstField;
      AddUnderInPlace(nestedArrays, basePath, nestedArrayPath);
      if basePath !in nestedArrays {
        nestedArrays := nestedArrays[basePath := []];
      }
      if nestedArrayPath !in nestedArrays[basePath] {
        nestedArrays := nestedArrays[basePath := nestedArrays[basePath] + [nestedArrayPath]];
      }
      if nestedArrayPath !in arrayElementFields {
        arrayElementFields := arrayElementFields[nestedArrayPath := EmptyDict()];
      }
      if |segments| == 3 {
        var fieldName := segments[2];
        arrayElementFields := arrayElementFields[nestedArrayPath := arrayElementFields[nestedArrayPath].Put(fieldName, path)];
      } else if |firstElement| > 1 {
        var secondLevel := SplitOnce(firstElement[1], ".");
        if |secondLevel| > 0 {
          var fieldName := secondLevel[0];
          arrayElementFields := arrayElementFields[nestedArrayPath := arrayElementFields[nestedArrayPath].Put(fieldName, path)];
        }
      }
    }

    /** `_process_simple_element_path` */
    method ProcessSimpleElementPath(path: string, segments: seq<string>, basePath: string)
      requires |segments| == 2 && basePath in arrayElementFields
      modifies this`arrayElementFields
      ensures Tables(arrayElementFields, nestedArrays) ==
        SimpleStep(old(Tables(arrayElementFields, nestedArrays)), path, segments, basePath)
    {
      var remaining := segments[1];
      var fieldParts := SplitOnce(remaining, ".");
      var fieldName := fieldParts[0];
      arrayElementFields := arrayElementFields[basePath := arrayElementFields[basePath].Put(fieldName, path)];
    }

    // ------------------------------------------------------------------
    // Children and processed_paths
    // ------------------------------------------------------------------

    /** `_mark_processed`: the path, then every key under it, in key order. */
    method MarkProcessed(parent: string)
      modifies this`processed
      ensures processed == Tree.MarkProcessed(pathData.keys, old(processed), parent)
    {
      processed := processed + {parent};
      var prefix := parent + ".";
      var keys := pathData.keys;
      ghost var start := processed;
      for k := 0 to |keys|
        invariant processed == Tree.MarkUnder(start, parent, keys[..k])
      {
        var path := keys[k];
        assert keys[..k + 1][..k] == keys[..k];
        if path != parent && StartsWith(path, prefix) {
          processed := processed + {path};
        }
      }
      assert keys[..|keys|] == keys;
    }

    /** `_mark_processed_tree`: the path, each child, and each child's recorded element paths. */
    method MarkProcessedTree(path: string, children: seq<string>)
      modifies this`processed
      ensures processed == Tree.MarkProcessedTree(old(Ix()), old(processed), path, children)
    {
      processed := processed + {path};
      ghost var start := processed;
      for i := 0 to |children|
        invariant processed == Tree.MarkChildren(Ix(), start, children[..i])
      {
        var child := children[i];
        assert children[..i + 1][..i] == children[..i];
        processed := processed + {child};
        if child in elementFields {
          var fs := elementFields[child];
          ghost var base := processed;
          for j := 0 to |fs|
            invariant processed == Tree.MarkElementFields(base, child, fs[..j])
          {
            assert fs[..j + 1][..j] == fs[..j];
            var elementPath := child + Marker + fs[j];
            processed := processed + {elementPath};
          }
          assert fs[..|fs|] == fs;
        }
      }
      assert children[..|children|] == children;
    }

    /** The indexed element paths of one element table, marked in key order. */
    method MarkElementPaths(table: Dict<string, string>)
      requires table.Valid()
      modifies this`processed
      ensures processed == Tree.MarkPresent(old(Ix()), old(processed), table, table.keys)
    {
      ghost var start := processed;
      for k := 0 to |table.keys|
        invariant processed == Tree.MarkPresent(Ix(), start, table, table.keys[..k])
      {
        var elementPath := table.vals[table.keys[k]];
        assert table.keys[..k + 1][..k] == table.keys[..k];
        if elementPath in pathData.vals {
          processed := processed + {elementPath};
        }
      }
      assert table.keys[..|table.keys|] == table.keys;
    }

    /** `_mark_array_elements_processed`: the array's element paths, then its nested arrays' ones. */
    method MarkArrayElementsProcessed(path: string)
      requires TablesOk(arrayElementFields)
      modifies this`processed
      ensures processed == Tree.MarkArrayElements(old(Ix()), old(processed), path)
    {
      if path in arrayElementFields {
        MarkElementPaths(arrayElementFields[path]);
        if path in nestedArrays {
          var nested := nestedArrays[path];
          ghost var start := processed;
          for k := 0 to |nested|
            invariant processed == Tree.MarkNested(Ix(), start, nested[..k])
          {
            assert nested[..k + 1][..k] == nested[..k];
            if nested[k] in arrayElementFields {
              MarkElementPaths(arrayElementFields[nested[k]]);
            }
          }
          assert nested[..|nested|] == nested;
        }
      }
    }

    // ------------------------------------------------------------------
    // Column definitions
    // ------------------------------------------------------------------

    /** `_format_struct`: a struct with its ordered body, marking the path and its children. */
    method FormatStruct(path: string, item: Descriptor) returns (definition: Option<string>)
      requires WellFormed(Ix())
      modifies this`processed
      ensures (definition, processed) == Passes.FormatStruct(old(Ix()), old(processed), path, item)
    {
      if path in processed {
        return None;
      }
      definition := FormatNewStruct(path, item);
    }

    /** `_format_struct` for a path not yet processed: its children's body, or `struct<>`. */
    method FormatNewStruct(path: string, item: Descriptor) returns (definition: Option<string>)
      requires WellFormed(Ix()) && path !in processed
      modifies this`processed
      ensures (definition, processed) == Passes.FormatStruct(old(Ix()), old(processed), path, item)
    {
      var children := Renderer.GetDirectChildren(Ix(), processed, path);
      var formattedPath := FormatPath(path);
      var comment := FormatComment(helper, DocOf(item));
      var afterClause := FormatAfterClause(item);
      if children == [] {
        definition := Some("    " + formattedPath + " struct<> " + comment + afterClause);
        processed := processed + {path};
        return;
      }
      definition := FormatParentStruct(path, children, formattedPath, comment, afterClause);
    }

    /** The `struct<...>` case of `_format_struct`: the children's body, then the tree marked. */
    method FormatParentStruct(path: string, children: seq<string>, formattedPath: string, comment: string, afterClause: string)
      returns (definition: Option<string>)
      requires WellFormed(Ix())
      modifies this`processed
      ensures definition == Some("    " + formattedPath + " struct<\n" + Render.StructContent(old(Ix()), old(processed), path, 2) + "\n    > " + comment + afterClause)
      ensures processed == Tree.MarkProcessedTree(old(Ix()), old(processed), path, children)
    {
      var structContent := Renderer.FormatStructContent(Ix(), processed, path, 2);
      definition := Some("    " + formattedPath + " struct<\n" + structContent + "\n    > " + comment + afterClause);
      MarkProcessedTree(path, children);
    }

    /** `_format_dotted_path`: one item as a dotted column, unless a struct or array covers it. */
    method FormatDottedPath(item: Descriptor) returns (definition: Option<string>)
      requires WellFormed(Ix())
      modifies this`processed
      ensures (definition, processed) == Passes.DottedPath(old(Ix()), old(processed), item)
    {
      var path := item.path;
      if Contains(path, Marker) {
        var arrayPath := SplitElementPath(path).0;
        if path in processed || arrayPath in processed {
          return None;
        }
      }
      var parts := Split(path, ".");
      if |parts| > 1 {
        if Tree.SomeProperPrefixIn(parts, processed) {
          return None;
        }
        if Passes.SomeStructParent(Ix(), parts) {
          return None;
        }
      }
      var valueType := item.kind;
      var comment := DocOf(item);
      var afterClause := FormatAfterClause(item);
      var formattedPath := FormatPath(path);
      if valueType == "object" {
        var s := FormatDottedObject(path, formattedPath, comment, afterClause);
        return Some(s);
      } else if valueType == "array" {
        var s := FormatDottedArray(path, formattedPath, item, comment, afterClause);
        return Some(s);
      }
      return Some("    " + formattedPath + " " + TypeName(helper, valueType) + " " + FormatComment(helper, comment) + afterClause);
    }

    /** `_format_dotted_object` */
    method FormatDottedObject(path: string, formattedPath: string, comment: string, afterClause: string) returns (s: string)
      requires WellFormed(Ix())
      ensures s == Passes.DottedObject(Ix(), processed, path, formattedPath, FormatComment(helper, comment), afterClause)
    {
      if Tree.HasChildren(pathData.keys, path) {
        var structContent := Renderer.FormatStructContent(Ix(), processed, path, 2);
        if !IsBlank(structContent) {
          return "    " + formattedPath + " struct<\n" + structContent + "\n    > " + FormatComment(helper, comment) + afterClause;
        }
      }
      return "    " + formattedPath + " struct<> " + FormatComment(helper, comment) + afterClause;
    }

    /** `_format_dotted_array`: an element body, when there is a non-blank one, also marks the element paths. */
    method FormatDottedArray(path: string, formattedPath: string, item: Descriptor, comment: string, afterClause: string)
      returns (s: string)
      requires WellFormed(Ix())
      modifies this`processed
      ensures (s, processed) == Passes.DottedArray(old(Ix()), old(processed), path, formattedPath, item, FormatComment(helper, comment), afterClause)
    {
      var hasElementFields := path in arrayElementFields && |arrayElementFields[path].keys| > 0;
      var hasNestedFields := item.nestedFields.Some?;
      if hasNestedFields || hasElementFields {
        var arrayStructContent := Renderer.FormatArrayStructContent(Ix(), processed, path, 3);
        if !IsBlank(arrayStructContent) {
          MarkArrayElementsProcessed(path);
          return "    " + formattedPath + " array<struct<\n" + arrayStructContent + "\n    >> " + FormatComment(helper, comment) + afterClause;
        }
      }
      var arrType := item.arrType.GetOr("string");
      return "    " + formattedPath + " array<" + arrType + "> " + FormatComment(helper, comment) + afterClause;
    }

    /** `_process_top_level_items`: a struct for an object with children, a dotted column otherwise. */
    method ProcessTopLevelItems() returns (columnDefinitions: seq<string>)
      requires WellFormed(Ix())
      modifies this`processed
      ensures (columnDefinitions, processed) == Passes.TopLevelPass(old(Ix()), [], old(processed), topLevelItems)
    {
      columnDefinitions := [];
      ghost var start := processed;
      for i := 0 to |topLevelItems|
        invariant (columnDefinitions, processed) == Passes.TopLevelPass(Ix(), [], start, topLevelItems[..i])
      {
        columnDefinitions := ProcessTopLevelItem(i, start, columnDefinitions);
      }
      assert topLevelItems[..|topLevelItems|] == topLevelItems;
    }

    /** The body of the `_process_top_level_items` loop for the `i`-th top-level item. */
    method ProcessTopLevelItem(i: nat, ghost start: set<string>, defs: seq<string>) returns (columnDefinitions: seq<string>)
      requires WellFormed(Ix()) && i < |topLevelItems|
      requires (defs, processed) == Passes.TopLevelPass(Ix(), [], start, topLevelItems[..i])
      modifies this`processed
      ensures (columnDefinitions, processed) == Passes.TopLevelPass(old(Ix()), [], start, topLevelItems[..i + 1])
    {
      assert topLevelItems[..i + 1][..i] == topLevelItems[..i];
      columnDefinitions := ProcessTopLevelStep(topLevelItems[i], defs);
    }

    /** One top-level item: skipped when processed, a struct for an object with children, else dotted. */
    method ProcessTopLevelStep(item: Descriptor, defs: seq<string>) returns (columnDefinitions: seq<string>)
      requires WellFormed(Ix())
      modifies this`processed
      ensures (columnDefinitions, processed) == Passes.TopLevelStep(old(Ix()), defs, old(processed), item)
    {
      columnDefinitions := defs;
      var path := item.path;
      if path in processed {
        return;
      }
      if item.kind == "object" && Tree.HasChildren(pathData.keys, path) {
        columnDefinitions := ProcessTopLevelStruct(item, defs);
      } else {
        var definition := FormatDottedPath(item);
        if Passes.Truthy(definition) {
          columnDefinitions := columnDefinitions + [definition.value];
          processed := processed + {path};
        }
      }
    }

    /** A top-level object with children: its struct, then its whole key tree marked processed. */
    method ProcessTopLevelStruct(item: Descriptor, defs: seq<string>) returns (columnDefinitions: seq<string>)
      requires WellFormed(Ix()) && item.path !in processed
      requires item.kind == "object" && Tree.HasChildren(pathData.keys, item.path)
      modifies this`processed
      ensures (columnDefinitions, processed) == Passes.TopLevelStep(old(Ix()), defs, old(processed), item)
    {
      columnDefinitions := defs;
      var definition := FormatStruct(item.path, item);
      if Passes.Truthy(definition) {
        columnDefinitions := columnDefinitions + [definition.value];
        MarkProcessed(item.path);
      }
    }

    /** `_get_remaining_items`: input items neither processed nor under a processed path. */
    method GetRemainingItems() returns (remainingItems: seq<Descriptor>)
      ensures remainingItems == Passes.RemainingItems(processed, input)
    {
      remainingItems := [];
      for i := 0 to |input|
        invariant remainingItems == Passes.RemainingItems(processed, input[..i])
      {
        assert input[..i + 1][..i] == input[..i];
        var path := input[i].path;
        if path !in processed && !Tree.IsChildOfProcessed(processed, path) {
          remainingItems := remainingItems + [input[i]];
        }
      }
      assert input[..|input|] == input;
    }

    /** `_process_remaining_items`: the remaining items by input position, each as a dotted column. */
    method ProcessRemainingItems() returns (columnDefinitions: seq<string>)
      requires WellFormed(Ix())
      modifies this`processed
      ensures (columnDefinitions, processed) ==
        Passes.RemainingPass(Ix(), [], old(processed), SortBy(Passes.RemainingItems(old(processed), input), Passes.ItemKey(Ix())))
    {
      var remainingItems := GetRemainingItems();
      remainingItems := SortBy(remainingItems, Passes.ItemKey(Ix()));
      columnDefinitions := ProcessSortedItems(remainingItems);
    }

    /** The loop of `_process_remaining_items` over the sorted items. */
    method ProcessSortedItems(items: seq<Descriptor>) returns (columnDefinitions: seq<string>)
      requires WellFormed(Ix())
      modifies this`processed
      ensures (columnDefinitions, processed) == Passes.RemainingPass(old(Ix()), [], old(processed), items)
    {
      columnDefinitions := [];
      ghost var start := processed;
      for i := 0 to |items|
        invariant (columnDefinitions, processed) == Passes.RemainingPass(Ix(), [], start, items[..i])
      {
        columnDefinitions := ProcessRemainingItem(items, i, start, columnDefinitions);
      }
      assert items[..|items|] == items;
    }

    /** The body of the `_process_remaining_items` loop for its `i`-th item. */
    method ProcessRemainingItem(items: seq<Descriptor>, i: nat, ghost start: set<string>, defs: seq<string>)
      returns (columnDefinitions: seq<string>)
      requires WellFormed(Ix()) && i < |items|
      requires (defs, processed) == Passes.RemainingPass(Ix(), [], start, items[..i])
      modifies this`processed
      ensures (columnDefinitions, processed) == Passes.RemainingPass(old(Ix()), [], start, items[..i + 1])
    {
      assert items[..i + 1][..i] == items[..i];
      columnDefinitions := defs;
      var item := items[i];
      var definition := FormatDottedPath(item);
      if Passes.Truthy(definition) {
        columnDefinitions := columnDefinitions + [definition.value];
        processed := processed + {item.path};
      }
    }

    /** `generate_sql`: index the input, run both passes, and wrap the definitions in one ADD statement. */
    method GenerateSql() returns (sql: string)
      requires Fresh()
      modifies this
      ensures sql == Passes.GenerateAdd(helper, input)
    {
      PreprocessInput();
      ProcessArrayElements();
      ghost var ix := BuildIndex(helper, input);
      assert Ix() == ix;
      BuildIndexWellFormed(helper, input);
      var columnDefinitions := ProcessTopLevelItems();
      assert Ix() == ix;
      var remaining := ProcessRemainingItems();
      columnDefinitions := columnDefinitions + remaining;
      assert columnDefinitions == Passes.Definitions(ix);
      if columnDefinitions == [] {
        return Passes.EmptyAdd;
      }
      var joinedColumns := Join(",\n", columnDefinitions);
      sql := Passes.AddHead + "\n" + joinedColumns + "\n    )";
    }
  }
}
