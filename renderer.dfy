/**
 * The read-only methods of `OrderPreservingGenerator`: the children queries and the
 * struct, array and nested-array formatters. They only read the generator's lookup
 * structures and `processed_paths`, so each takes that state as a value (an `Index`
 * and a processed set) and is proved to return what the matching function of the
 * `Tree` or `Render` module computes.
 */
module Renderer {
  import opened Wrappers
  import opened Strings
  import opened Collections
  import opened Schema
  import opened Formatter
  import opened PathIndex
  import opened Tree
  import opened Render

  /** `_get_direct_children`: one pass over the keys, each offered to the three cases. */
  method GetDirectChildren(ix: Index, processed: set<string>, parent: string) returns (children: seq<string>)
    requires ix.pathData.Valid()
    ensures children == Tree.DirectChildren(ix, processed, parent)
  {
    children := [];
    var prefix := if parent != "" then parent + "." else "";
    var prefixLen := |prefix|;
    var keys := ix.pathData.keys;
    for k := 0 to |keys|
      invariant children == Tree.DirectChildrenOf(ix, processed, parent, keys[..k])
    {
      var path := keys[k];
      assert keys[..k + 1][..k] == keys[..k];
      assert forall x :: x in keys[..k + 1] ==> x in keys;
      if path == parent || path in processed {
        continue;
      }
      if !StartsWith(path, prefix) {
        continue;
      }
      var remaining := path[prefixLen..];
      children := AddDirectChildIfMatched(ix, path, remaining, children, parent);
    }
    assert keys[..|keys|] == keys;
  }

  /** `_add_direct_child_if_matched`, returning the extended list. */
  method AddDirectChildIfMatched(ix: Index, path: string, remaining: string, directChildren: seq<string>, parent: string)
    returns (children: seq<string>)
    ensures children == Tree.AddDirectChild(ix.pathData.vals, parent, path, remaining, directChildren)
  {
    children := directChildren;
    if !Contains(remaining, ".") {
      children := children + [path];
    } else if Count(remaining, ".") >= 2 && Contains(remaining, Marker) {
      var arrayName := Split(remaining, ".")[0];
      var arrayPath := parent + "." + arrayName;
      if arrayPath !in children && arrayPath in ix.pathData.vals {
        children := children + [arrayPath];
      }
    } else if Contains(remaining, ".") && Count(remaining, ".") == 1 {
      var firstPart := SplitOnce(remaining, ".")[0];
      var childPath := parent + "." + firstPart;
      if childPath in ix.pathData.vals && childPath !in children {
        children := children + [childPath];
      }
    }
  }

  /** `_get_ordered_children`: field-order children, then the rest, stably sorted by `original_order`. */
  method GetOrderedChildren(ix: Index, processed: set<string>, structPath: string) returns (ordered: seq<string>)
    requires ix.pathData.Valid()
    ensures ordered == Tree.OrderedChildren(ix, processed, structPath)
  {
    var direct := GetDirectChildren(ix, processed, structPath);
    ordered := [];
    var fields := Get(ix.fieldOrder, structPath);
    for i := 0 to |fields|
      invariant ordered == Tree.InFieldOrder(structPath, fields[..i], direct)
    {
      assert fields[..i + 1][..i] == fields[..i];
      var childPath := if structPath != "" then structPath + "." + fields[i] else fields[i];
      if childPath in direct {
        ordered := ordered + [childPath];
      }
    }
    assert fields[..|fields|] == fields;
    ghost var first := ordered;
    for i := 0 to |direct|
      invariant Tree.AddMissing(ordered, direct[i..]) == Tree.AddMissing(first, direct)
    {
      assert direct[i..][1..] == direct[i + 1..];
      if direct[i] !in ordered {
        ordered := ordered + [direct[i]];
      }
    }
    ordered := SortBy(ordered, Tree.OrderKey(ix));
  }

  // ------------------------------------------------------------------
  // Struct and array bodies
  // ------------------------------------------------------------------

  /** `_format_struct_content`: one line per ordered child, joined. */
  method FormatStructContent(ix: Index, processed: set<string>, structPath: string, level: nat) returns (s: string)
    requires WellFormed(ix)
    ensures s == StructContent(ix, processed, structPath, level)
  {
    var ordered := GetOrderedChildren(ix, processed, structPath);
    OrderedChildrenBelow(ix, processed, structPath);
    var lines := StructChildLines(ix, processed, ordered, level);
    ghost var expected := ChildLines(ix, processed, structPath, ordered, level);
    assert lines == expected;
    s := Join(",\n", lines);
  }

  /** The loop of `_format_struct_content`: one `_format_struct_child` line per child, in order. */
  method StructChildLines(ix: Index, processed: set<string>, children: seq<string>, level: nat) returns (lines: seq<string>)
    requires WellFormed(ix)
    ensures |lines| == |children| && forall k :: 0 <= k < |children| ==> lines[k] == StructChild(ix, processed, children[k], level)
  {
    lines := [];
    for i := 0 to |children|
      invariant |lines| == i && forall k :: 0 <= k < i ==> lines[k] == StructChild(ix, processed, children[k], level)
    {
      lines := lines + [StructChild(ix, processed, children[i], level)];
    }
  }

  /** `_format_array_struct_content`: the collected fields by order, each name once. */
  method FormatArrayStructContent(ix: Index, processed: set<string>, arrayPath: string, level: nat) returns (s: string)
    requires WellFormed(ix)
    ensures s == ArrayStructContent(ix, processed, arrayPath, level)
  {
    var allFields := CollectArrayFields(ix, arrayPath);
    CollectArrayFieldsOk(ix, arrayPath);
    ArrayFieldNamesSpec(ix, arrayPath);
    var names := SortBy(allFields.keys, FieldKey(allFields));
    var structFields := EmitArrayStructFields(ix, processed, arrayPath, allFields, names, level);
    s := Join(",\n", structFields);
  }

  /** The loop of `_format_array_struct_content`, over the sorted field names. */
  method EmitArrayStructFields(ix: Index, processed: set<string>, arrayPath: string, allFields: Dict<string, FieldInfo>,
                               names: seq<string>, level: nat) returns (structFields: seq<string>)
    requires WellFormed(ix) && FieldsOk(ix, arrayPath, allFields)
    requires forall n :: n in names ==> n in allFields.vals
    ensures structFields == FieldLines(ix, processed, arrayPath, allFields, names, {}, level)
  {
    structFields := [];
    var processedFields: set<string> := {};
    for i := 0 to |names|
      invariant structFields + FieldLines(ix, processed, arrayPath, allFields, names[i..], processedFields, level) ==
        FieldLines(ix, processed, arrayPath, allFields, names, {}, level)
    {
      structFields, processedFields := EmitArrayStructField(ix, processed, arrayPath, allFields, names, i, structFields, processedFields, level);
    }
    assert names[|names|..] == [];
  }

  /** One turn of the `_format_array_struct_content` loop: a name not yet handled gives its line. */
  method EmitArrayStructField(ix: Index, processed: set<string>, arrayPath: string, allFields: Dict<string, FieldInfo>,
                              names: seq<string>, i: nat, structFields: seq<string>, processedFields: set<string>, level: nat)
    returns (fields: seq<string>, seen: set<string>)
    requires WellFormed(ix) && FieldsOk(ix, arrayPath, allFields)
    requires i < |names| && forall n :: n in names ==> n in allFields.vals
    ensures fields + FieldLines(ix, processed, arrayPath, allFields, names[i + 1..], seen, level) ==
      structFields + FieldLines(ix, processed, arrayPath, allFields, names[i..], processedFields, level)
  {
    fields, seen := structFields, processedFields;
    var fieldName := names[i];
    FieldLinesStep(ix, processed, arrayPath, allFields, names, i, processedFields, level);
    if fieldName in processedFields {
      return;
    }
    var line;
    match allFields.vals[fieldName] {
      case NestedFieldInfo(nf) =>
        line := NestedFieldLine(ix, fieldName, nf, Indent(level));
      case Regular(_, elementPath) =>
        line := RegularField(ix, processed, fieldName, elementPath, level);
      case NestedArray(_, nestedArrayPath) =>
        line := NestedArrayField(ix, fieldName, nestedArrayPath, level);
    }
    assert line == FieldLine(ix, processed, arrayPath, fieldName, allFields.vals[fieldName], level);
    ghost var rest := FieldLines(ix, processed, arrayPath, allFields, names[i + 1..], processedFields + {fieldName}, level);
    assert structFields + [line] + rest == structFields + ([line] + rest);
    fields := fields + [line];
    seen := seen + {fieldName};
  }

  /** `_collect_array_fields`: nestedFields first, then element fields, then nested arrays. */
  method CollectArrayFields(ix: Index, arrayPath: string) returns (allFields: Dict<string, FieldInfo>)
    requires TablesOk(ix.arrayElementFields)
    ensures allFields == Render.CollectArrayFields(ix, arrayPath)
  {
    allFields := EmptyDict();
    if arrayPath in ix.pathData.vals && ix.pathData.vals[arrayPath].nestedFields.Some? {
      var nf := ix.pathData.vals[arrayPath].nestedFields.value;
      allFields := allFields.Put(FieldName(nf), NestedFieldInfo(nf));
    }
    if arrayPath in ix.arrayElementFields {
      allFields := AddElementTable(ix, allFields, ix.arrayElementFields[arrayPath]);
    }
    allFields := AddNestedArrayPaths(ix, allFields, Get(ix.nestedArrays, arrayPath));
  }

  /** The element-field loop of `_collect_array_fields`: each indexed element path, by its name. */
  method AddElementTable(ix: Index, start: Dict<string, FieldInfo>, table: Dict<string, string>) returns (allFields: Dict<string, FieldInfo>)
    requires table.Valid()
    ensures allFields == AddRegular(ix, start, table, table.keys)
  {
    allFields := start;
    for k := 0 to |table.keys|
      invariant allFields == AddRegular(ix, start, table, table.keys[..k])
    {
      var fieldName := table.keys[k];
      var elementPath := table.vals[fieldName];
      assert table.keys[..k + 1][..k] == table.keys[..k];
      if elementPath in ix.pathData.vals {
        allFields := allFields.Put(fieldName, Regular(OrderOf(ix, elementPath), elementPath));
      }
    }
    assert table.keys[..|table.keys|] == table.keys;
  }

  /** The nested-array loop of `_collect_array_fields`: each nested array under its last segment. */
  method AddNestedArrayPaths(ix: Index, start: Dict<string, FieldInfo>, nested: seq<string>) returns (allFields: Dict<string, FieldInfo>)
    ensures allFields == AddNestedArrays(ix, start, nested)
  {
    allFields := start;
    for k := 0 to |nested|
      invariant allFields == AddNestedArrays(ix, start, nested[..k])
    {
      assert nested[..k + 1][..k] == nested[..k];
      var fieldName := LastSegment(nested[k]);
      allFields := allFields.Put(fieldName, NestedArray(OrderOf(ix, nested[k]), nested[k]));
    }
    assert nested[..|nested|] == nested;
  }

  /** The `for item in self.input_data: ... break` search for an array's own item. */
  method FindArrayDef(ix: Index, path: string) returns (def: Option<Descriptor>)
    ensures def == FirstWithPath(ix.input, path)
  {
    var i := 0;
    while i < |ix.input|
      invariant 0 <= i <= |ix.input|
      invariant FirstWithPath(ix.input[i..], path) == FirstWithPath(ix.input, path)
    {
      if ix.input[i].path == path {
        return Some(ix.input[i]);
      }
      assert ix.input[i..][1..] == ix.input[i + 1..];
      i := i + 1;
    }
    return None;
  }

  /** `_format_nested_array_content`: the three sources of lines, sharing one set of emitted names. */
  method FormatNestedArrayContent(ix: Index, nestedArrayPath: string, level: nat) returns (s: string)
    requires TablesOk(ix.arrayElementFields)
    ensures s == NestedArrayContent(ix, nestedArrayPath, level)
  {
    var indent := Indent(level);
    var structFields: seq<string> := [];
    var processedFields: set<string> := {};
    ghost var entries: seq<(string, string)> := [];
    structFields, processedFields, entries := AddNestedArrayFields(ix, nestedArrayPath, indent, structFields, processedFields, entries);
    assert entries == NestedArrayFieldsEntry(ix, nestedArrayPath, indent);
    structFields, processedFields, entries := AddElementFieldsFromPathScan(ix, nestedArrayPath, indent, structFields, processedFields, entries);
    structFields, processedFields, entries := AddElementFieldsFromMapping(ix, nestedArrayPath, indent, structFields, processedFields, entries);
    assert entries == NestedArrayEntries(ix, nestedArrayPath, level);
    s := Join(",\n", structFields);
  }

  /** `_add_nested_array_fields`: the nestedFields line of the nested array's first item, if any. */
  method AddNestedArrayFields(ix: Index, nestedArrayPath: string, indent: string, structFields: seq<string>, processedFields: set<string>,
                              ghost entries: seq<(string, string)>)
    returns (fields: seq<string>, seen: set<string>, ghost entries': seq<(string, string)>)
    requires structFields == Lines(entries) && forall n :: n in processedFields <==> n in KeysOf(entries)
    ensures entries' == entries + NestedArrayFieldsEntry(ix, nestedArrayPath, indent)
    ensures fields == Lines(entries') && forall n :: n in seen <==> n in KeysOf(entries')
  {
    fields, seen, entries' := structFields, processedFields, entries;
    var arrayDef := FindArrayDef(ix, nestedArrayPath);
    if arrayDef.Some? && arrayDef.value.nestedFields.Some? && arrayDef.value.nestedFields.value.name.Some? {
      var nf := arrayDef.value.nestedFields.value;
      var nfType := if nf.kind.Some? then TypeName(ix.helper, nf.kind.value) else "string";
      var nfName := nf.name.value;
      var line := Entry(indent, nfName, nfType + " " + FormatComment(ix.helper, nf.doc.GetOr("")));
      fields := fields + [line];
      seen := seen + {nfName};
      entries' := entries' + [(nfName, line)];
      NamesSnoc(entries, (nfName, line));
      assert Lines(entries') == Lines(entries) + [line];
    } else {
      assert entries + [] == entries;
    }
  }

  /**
   * The emitting loop shared by `_add_element_fields_from_path_scan` and
   * `_add_element_fields_from_mapping`: each (name, path) entry of a table gives a
   * line unless its name was emitted already or its path is not indexed.
   */
  method EmitElementFields(ix: Index, table: Dict<string, string>, indent: string, structFields: seq<string>, processedFields: set<string>,
                           ghost entries: seq<(string, string)>)
    returns (fields: seq<string>, seen: set<string>, ghost entries': seq<(string, string)>)
    requires table.Valid()
    requires structFields == Lines(entries) && forall n :: n in processedFields <==> n in KeysOf(entries)
    ensures entries' == EmitAll(ix, indent, entries, table, table.keys)
    ensures fields == Lines(entries') && forall n :: n in seen <==> n in KeysOf(entries')
  {
    fields, seen, entries' := structFields, processedFields, entries;
    for k := 0 to |table.keys|
      invariant entries' == EmitAll(ix, indent, entries, table, table.keys[..k])
      invariant fields == Lines(entries') && forall n :: n in seen <==> n in KeysOf(entries')
    {
      var fieldName := table.keys[k];
      var path := table.vals[fieldName];
      assert table.keys[..k + 1][..k] == table.keys[..k];
      if fieldName in seen {
        continue;
      }
      if path !in ix.pathData.vals {
        continue;
      }
      var item := ix.pathData.vals[path];
      var line := Entry(indent, fieldName, TypeName(ix.helper, item.kind) + " " + FormatComment(ix.helper, DocOf(item)));
      NamesSnoc(entries', (fieldName, line));
      entries' := entries' + [(fieldName, line)];
      fields := fields + [line];
      seen := seen + {fieldName};
    }
    assert table.keys[..|table.keys|] == table.keys;
  }

  /** `_add_element_fields_from_path_scan`: keys under `base.element.name.element.`, by their next segment. */
  method AddElementFieldsFromPathScan(ix: Index, nestedArrayPath: string, indent: string, structFields: seq<string>, processedFields: set<string>,
                                      ghost entries: seq<(string, string)>)
    returns (fields: seq<string>, seen: set<string>, ghost entries': seq<(string, string)>)
    requires structFields == Lines(entries) && forall n :: n in processedFields <==> n in KeysOf(entries)
    ensures entries' == EmitAll(ix, indent, entries, PathScan(ix, nestedArrayPath), PathScan(ix, nestedArrayPath).keys)
    ensures fields == Lines(entries') && forall n :: n in seen <==> n in KeysOf(entries')
  {
    var elementFieldsFound: Dict<string, string> := EmptyDict();
    var keys := ix.pathData.keys;
    ghost var segs := Split(nestedArrayPath, Marker);
    ghost var pattern0 := if |segs| >= 2 then segs[0] + Marker + segs[1] + Marker else "";
    for k := 0 to |keys|
      invariant elementFieldsFound == (if |segs| >= 2 then ScanKeys(pattern0, keys[..k]) else EmptyDict())
    {
      var path := keys[k];
      assert keys[..k + 1][..k] == keys[..k];
      var parts := Split(nestedArrayPath, Marker);
      if |parts| >= 2 {
        var basePath := parts[0];
        var nestedArrayName := parts[1];
        var pattern := basePath + Marker + nestedArrayName + Marker;
        if StartsWith(path, pattern) {
          var fieldName := path[|pattern|..];
          if Contains(fieldName, ".") {
            fieldName := SplitOnce(fieldName, ".")[0];
          }
          elementFieldsFound := elementFieldsFound.Put(fieldName, path);
        }
      }
    }
    assert keys[..|keys|] == keys;
    fields, seen, entries' := EmitElementFields(ix, elementFieldsFound, indent, structFields, processedFields, entries);
  }

  /** `_add_element_fields_from_mapping`: the nested array's own element table, if it has one. */
  method AddElementFieldsFromMapping(ix: Index, nestedArrayPath: string, indent: string, structFields: seq<string>, processedFields: set<string>,
                                     ghost entries: seq<(string, string)>)
    returns (fields: seq<string>, seen: set<string>, ghost entries': seq<(string, string)>)
    requires TablesOk(ix.arrayElementFields)
    requires structFields == Lines(entries) && forall n :: n in processedFields <==> n in KeysOf(entries)
    ensures nestedArrayPath in ix.arrayElementFields ==>
      entries' == EmitAll(ix, indent, entries, ix.arrayElementFields[nestedArrayPath], ix.arrayElementFields[nestedArrayPath].keys)
    ensures nestedArrayPath !in ix.arrayElementFields ==> entries' == entries
    ensures fields == Lines(entries') && forall n :: n in seen <==> n in KeysOf(entries')
  {
    fields, seen, entries' := structFields, processedFields, entries;
    if nestedArrayPath in ix.arrayElementFields {
      fields, seen, entries' := EmitElementFields(ix, ix.arrayElementFields[nestedArrayPath], indent, fields, seen, entries');
    }
  }
}
