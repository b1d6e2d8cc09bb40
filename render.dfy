/**
 * The field formatters of `OrderPreservingGenerator`: struct content, struct children,
 * object and array fields, array element bodies and nested-array bodies. In the
 * source they only read the generator's state (the index and `processed_paths`),
 * so here they are functions of an `Index` and a processed set.
 *
 * The recursion between struct content and array element bodies terminates because
 * every call either moves to a strictly longer indexed path or stays at the same
 * path and moves down the (struct child, object/array field, element body / regular
 * field, struct content, list) ladder.
 */
module Render {
  import opened Wrappers
  import opened Strings
  import opened Collections
  import opened Schema
  import opened Formatter
  import opened PathIndex
  import opened Tree

  /** Length of the longest key. */
  function MaxLen(ks: seq<string>): (m: nat)
    ensures forall k :: k in ks ==> |k| <= m
    decreases |ks|
  {
    if |ks| == 0 then 0
    else
      var m := MaxLen(ks[1..]);
      assert forall k :: k in ks ==> k == ks[0] || k in ks[1..];
      if |ks[0]| > m then |ks[0]| else m
  }

  /** How far below the longest key a path sits: the outer termination measure. */
  function Height(ix: Index, path: string): int
  {
    MaxLen(ix.pathData.keys) - |path|
  }

  /** `" " * (indent_level * 4)` */
  function Indent(level: nat): string
  {
    Spaces(level * 4)
  }

  /** `path.split(".")[-1]` */
  function LastSegment(path: string): string
  {
    var parts := Split(path, ".");
    parts[|parts| - 1]
  }

  function Comment(ix: Index, doc: string): string
  {
    FormatComment(ix.helper, doc)
  }

  /** One line of a struct body: `{indent}{name}: {decl}` */
  function Entry(indent: string, name: string, decl: string): string
  {
    indent + name + ": " + decl
  }

  /** A struct-body line begins with its indent and its name. */
  lemma EntryStarts(indent: string, name: string, decl: string)
    ensures StartsWith(Entry(indent, name, decl), indent + name + ": ")
  {
    StartsWithAppend(indent + name + ": ", decl);
  }

  /** `array_path in array_element_fields and array_element_fields[array_path]` */
  predicate HasElements(ix: Index, path: string)
  {
    path in ix.arrayElementFields && |ix.arrayElementFields[path].keys| > 0
  }

  // ------------------------------------------------------------------
  // _collect_array_fields
  // ------------------------------------------------------------------

  /** One entry of `all_fields`: its source, its sort order and its data. */
  datatype FieldInfo =
    | NestedFieldInfo(data: NestedField)
    | Regular(order: int, path: string)
    | NestedArray(order: int, path: string)
  {
    /** `info["order"]`: a `nestedFields` entry sorts first with -1. */
    function Order(): int
    {
      if NestedFieldInfo? then -1 else order
    }
  }

  /** The regular element fields of one element table, put in turn. */
  function AddRegular(ix: Index, d: Dict<string, FieldInfo>, table: Dict<string, string>, names: seq<string>): (r: Dict<string, FieldInfo>)
    requires forall n :: n in names ==> n in table.vals
    ensures d.Valid() ==> r.Valid()
    decreases |names|
  {
    if |names| == 0 then d
    else
      var n := |names| - 1;
      var r := AddRegular(ix, d, table, names[..n]);
      assert forall m :: m in names[..n] ==> m in names;
      var e := table.vals[names[n]];
      if e in ix.pathData.vals then r.Put(names[n], Regular(OrderOf(ix, e), e)) else r
  }

  /** The nested arrays of an array, each under its last segment, put in turn. */
  function AddNestedArrays(ix: Index, d: Dict<string, FieldInfo>, nested: seq<string>): (r: Dict<string, FieldInfo>)
    ensures d.Valid() ==> r.Valid()
    decreases |nested|
  {
    if |nested| == 0 then d
    else
      var n := |nested| - 1;
      var a := nested[n];
      AddNestedArrays(ix, d, nested[..n]).Put(LastSegment(a), NestedArray(OrderOf(ix, a), a))
  }

  /** The `nestedFields` entry an array's indexed item contributes, if any. */
  function NestedFieldsOf(ix: Index, path: string): Option<NestedField>
  {
    if path in ix.pathData.vals then ix.pathData.vals[path].nestedFields else None
  }

  /** `_collect_array_fields`: nestedFields first, then element fields, then nested arrays. */
  function CollectArrayFields(ix: Index, path: string): Dict<string, FieldInfo>
    requires TablesOk(ix.arrayElementFields)
  {
    var d0 := match NestedFieldsOf(ix, path)
      case Some(nf) => EmptyDict<string, FieldInfo>().Put(FieldName(nf), NestedFieldInfo(nf))
      case None => EmptyDict();
    var d1 := if path in ix.arrayElementFields
      then AddRegular(ix, d0, ix.arrayElementFields[path], ix.arrayElementFields[path].keys)
      else d0;
    AddNestedArrays(ix, d1, Get(ix.nestedArrays, path))
  }

  /** The sort key `all_fields[x]["order"]`. */
  function FieldKey(fields: Dict<string, FieldInfo>): string -> int
  {
    n => if n in fields.vals then fields.vals[n].Order() else 0
  }

  /** `sorted(all_fields.keys(), key=...)` */
  function ArrayFieldNames(fields: Dict<string, FieldInfo>): seq<string>
  {
    SortBy(fields.keys, FieldKey(fields))
  }

  /**
   * What `_collect_array_fields` guarantees: a well-formed dict whose regular entries
   * name indexed paths longer than the array, whose only possible nestedFields entry
   * is the array's own, filed under its name, and whose other entries sort at 0 or later.
   */
  ghost predicate FieldsOk(ix: Index, path: string, fields: Dict<string, FieldInfo>)
  {
    fields.Valid() &&
    (forall n :: n in fields.vals && fields.vals[n].Regular? ==>
      fields.vals[n].path in ix.pathData.vals && |fields.vals[n].path| > |path|) &&
    (forall n :: n in fields.vals && fields.vals[n].NestedFieldInfo? ==>
      NestedFieldsOf(ix, path) == Some(fields.vals[n].data) && n == FieldName(fields.vals[n].data)) &&
    (forall n :: n in fields.vals && !fields.vals[n].NestedFieldInfo? ==> fields.vals[n].order >= 0)
  }

  // ------------------------------------------------------------------
  // The formatters
  // ------------------------------------------------------------------

  /** `_format_struct_content(path, level)`: the ordered children, one line each. */
  function StructContent(ix: Index, processed: set<string>, path: string, level: nat): string
    requires WellFormed(ix)
    decreases Height(ix, path), 2, 0
  {
    var children := OrderedChildren(ix, processed, path);
    OrderedChildrenSpec(ix, processed, path);
    Join(",\n", ChildLines(ix, processed, path, children, level))
  }

  /** The loop of `_format_struct_content`. */
  function ChildLines(ix: Index, processed: set<string>, parent: string, children: seq<string>, level: nat): (r: seq<string>)
    requires WellFormed(ix)
    requires forall c :: c in children ==> c in ix.pathData.keys && |c| > |parent|
    ensures |r| == |children| && forall i :: 0 <= i < |children| ==> r[i] == StructChild(ix, processed, children[i], level)
    decreases Height(ix, parent), 1, |children|
  {
    if |children| == 0 then []
    else [StructChild(ix, processed, children[0], level)] + ChildLines(ix, processed, parent, children[1..], level)
  }

  /** `_format_struct_child` */
  function StructChild(ix: Index, processed: set<string>, child: string, level: nat): string
    requires WellFormed(ix)
    decreases Height(ix, child), 5, 0
  {
    var field := LastSegment(child);
    if child !in ix.pathData.vals then ""
    else
      var item := ix.pathData.vals[child];
      var comment := DocOf(item);
      if item.kind == "object" then ObjectField(ix, processed, child, field, comment, level)
      else if item.kind == "array" then ArrayField(ix, processed, child, field, comment, item, level)
      else Entry(Indent(level), field, TypeName(ix.helper, item.kind) + " " + Comment(ix, comment))
  }

  /** `_format_object_field` */
  function ObjectField(ix: Index, processed: set<string>, child: string, field: string, comment: string, level: nat): string
    requires WellFormed(ix)
    decreases Height(ix, child), 4, 0
  {
    var indent := Indent(level);
    var content := if HasChildren(ix.pathData.keys, child) then StructContent(ix, processed, child, level + 1) else "";
    if HasChildren(ix.pathData.keys, child) && !IsBlank(content) then
      Entry(indent, field, "struct<\n" + content + "\n" + indent + "> " + Comment(ix, comment))
    else Entry(indent, field, "struct<> " + Comment(ix, comment))
  }

  /** `_format_array_field` */
  function ArrayField(ix: Index, processed: set<string>, child: string, field: string, comment: string, item: Descriptor, level: nat): string
    requires WellFormed(ix)
    decreases Height(ix, child), 4, 0
  {
    var indent := Indent(level);
    if item.arrType.Some? && !HasElements(ix, child) then
      Entry(indent, field, "array<" + item.arrType.value + "> " + Comment(ix, comment))
    else
      var content := ArrayStructContent(ix, processed, child, level + 1);
      if !IsBlank(content) then Entry(indent, field, "array<struct<\n" + content + "\n" + indent + ">> " + Comment(ix, comment))
      else Entry(indent, field, "array<" + item.arrType.GetOr("string") + "> " + Comment(ix, comment))
  }

  /** `_format_array_struct_content(path, level)`: the element body of an array. */
  function ArrayStructContent(ix: Index, processed: set<string>, path: string, level: nat): string
    requires WellFormed(ix)
    decreases Height(ix, path), 3, 0
  {
    var fields := CollectArrayFields(ix, path);
    CollectArrayFieldsOk(ix, path);
    var names := ArrayFieldNames(fields);
    SortByStable(fields.keys, FieldKey(fields));
    assert forall n :: n in names ==> n in multiset(fields.keys);
    Join(",\n", FieldLines(ix, processed, path, fields, names, {}, level))
  }

  /** The loop of `_format_array_struct_content`: each name not yet handled gives one line. */
  function FieldLines(ix: Index, processed: set<string>, path: string, fields: Dict<string, FieldInfo>,
                      names: seq<string>, seen: set<string>, level: nat): (r: seq<string>)
    requires WellFormed(ix) && FieldsOk(ix, path, fields)
    requires forall n :: n in names ==> n in fields.vals
    decreases Height(ix, path), 1, |names|
  {
    if |names| == 0 then []
    else if names[0] in seen then FieldLines(ix, processed, path, fields, names[1..], seen, level)
    else
      [FieldLine(ix, processed, path, names[0], fields.vals[names[0]], level)] +
      FieldLines(ix, processed, path, fields, names[1..], seen + {names[0]}, level)
  }

  /** The three branches of the loop body: nestedFields entry, regular field, nested array. */
  function FieldLine(ix: Index, processed: set<string>, path: string, name: string, info: FieldInfo, level: nat): string
    requires WellFormed(ix)
    requires info.Regular? ==> info.path in ix.pathData.vals && |info.path| > |path|
    decreases Height(ix, path), 0, 0
  {
    match info
    case NestedFieldInfo(nf) => NestedFieldLine(ix, name, nf, Indent(level))
    case Regular(_, e) => RegularField(ix, processed, name, e, level)
    case NestedArray(_, a) => NestedArrayField(ix, name, a, level)
  }

  /** `_format_nestedfield`: an unknown element type becomes `string`. */
  function NestedFieldLine(ix: Index, name: string, nf: NestedField, indent: string): string
  {
    Entry(indent, name, TypeNameOr(ix.helper, nf.kind.GetOr("string"), "string") + " " + Comment(ix, nf.doc.GetOr("")))
  }

  /** `_format_regular_field` */
  function RegularField(ix: Index, processed: set<string>, name: string, path: string, level: nat): string
    requires WellFormed(ix) && path in ix.pathData.vals
    decreases Height(ix, path), 3, 0
  {
    var indent := Indent(level);
    var item := ix.pathData.vals[path];
    var comment := Comment(ix, DocOf(item));
    if item.kind == "array" then Entry(indent, name, "array<" + item.arrType.GetOr("string") + "> " + comment)
    else if item.kind == "object" && HasChildren(ix.pathData.keys, path) then
      Entry(indent, name, "struct<\n" + StructContent(ix, processed, path, level + 1) + "\n" + indent + "> " + comment)
    else Entry(indent, name, TypeName(ix.helper, item.kind) + " " + comment)
  }

  // ------------------------------------------------------------------
  // Nested arrays inside array elements
  // ------------------------------------------------------------------

  /** The first input item with the given path (the `for ... break` loops). */
  function FirstWithPath(items: seq<Descriptor>, path: string): (r: Option<Descriptor>)
    ensures r.Some? ==> r.value in items && r.value.path == path
    ensures r.Some? ==> exists i :: 0 <= i < |items| && items[i] == r.value && path !in Paths(items[..i])
    ensures r.None? ==> path !in Paths(items)
    decreases |items|
  {
    if |items| == 0 then None
    else if items[0].path == path then
      assert Paths(items[..0]) == [];
      Some(items[0])
    else
      var r := FirstWithPath(items[1..], path);
      assert Paths(items) == [items[0].path] + Paths(items[1..]);
      assert forall i :: 0 <= i < |items| - 1 ==> Paths(items[..i + 1]) == [items[0].path] + Paths(items[1..][..i]);
      r
  }

  /** `_format_nested_array_field` */
  function NestedArrayField(ix: Index, name: string, path: string, level: nat): string
    requires TablesOk(ix.arrayElementFields)
  {
    var indent := Indent(level);
    var content := NestedArrayContent(ix, path, level + 1);
    var def := FirstWithPath(ix.input, path);
    var comment := Comment(ix, if def.Some? then DocOf(def.value) else "");
    if !IsBlank(content) then Entry(indent, name, "array<struct<\n" + content + "\n" + indent + ">> " + comment)
    else Entry(indent, name, "array<" + (if def.Some? then def.value.arrType.GetOr("string") else "string") + "> " + comment)
  }

  /**
   * The lines of the (name, line) entries emitted so far; their names, `KeysOf`,
   * are `processed_fields`.
   */
  function Lines(entries: seq<(string, string)>): (r: seq<string>)
    ensures |r| == |entries| && forall i :: 0 <= i < |entries| ==> r[i] == entries[i].1
  {
    seq(|entries|, i requires 0 <= i < |entries| => entries[i].1)
  }

  /** `_add_nested_array_fields`: the nestedFields line of the nested array's first item. */
  function NestedArrayFieldsEntry(ix: Index, path: string, indent: string): (r: seq<(string, string)>)
    ensures |r| <= 1
  {
    var def := FirstWithPath(ix.input, path);
    if def.Some? && def.value.nestedFields.Some? && def.value.nestedFields.value.name.Some? then
      var nf := def.value.nestedFields.value;
      var kind := if nf.kind.Some? then TypeName(ix.helper, nf.kind.value) else "string";
      [(nf.name.value, Entry(indent, nf.name.value, kind + " " + Comment(ix, nf.doc.GetOr(""))))]
    else []
  }

  /** One element field of a nested array: emitted unless its name was already emitted. */
  function EmitFlat(ix: Index, indent: string, acc: seq<(string, string)>, name: string, path: string): seq<(string, string)>
  {
    if name in KeysOf(acc) || path !in ix.pathData.vals then acc
    else
      var item := ix.pathData.vals[path];
      acc + [(name, Entry(indent, name, TypeName(ix.helper, item.kind) + " " + Comment(ix, DocOf(item))))]
  }

  /** The loops of `_add_element_fields_from_path_scan` and `_add_element_fields_from_mapping`. */
  function EmitAll(ix: Index, indent: string, acc: seq<(string, string)>, table: Dict<string, string>, names: seq<string>): seq<(string, string)>
    requires forall n :: n in names ==> n in table.vals
    decreases |names|
  {
    if |names| == 0 then acc
    else
      var n := |names| - 1;
      assert forall m :: m in names[..n] ==> m in names;
      EmitFlat(ix, indent, EmitAll(ix, indent, acc, table, names[..n]), names[n], table.vals[names[n]])
  }

  /** `base.element.name.element.` for a nested array path `base.element.name`. */
  function ScanKeys(pattern: string, ks: seq<string>): (d: Dict<string, string>)
    ensures d.Valid()
    decreases |ks|
  {
    if |ks| == 0 then EmptyDict()
    else
      var n := |ks| - 1;
      var d := ScanKeys(pattern, ks[..n]);
      var k := ks[n];
      if StartsWith(k, pattern) then
        var rest := k[|pattern|..];
        var name := if Contains(rest, ".") then SplitOnce(rest, ".")[0] else rest;
        d.Put(name, k)
      else d
  }

  /** The `element_fields` dict `_add_element_fields_from_path_scan` builds. */
  function PathScan(ix: Index, path: string): (d: Dict<string, string>)
    ensures d.Valid()
  {
    var parts := Split(path, Marker);
    if |parts| >= 2 then ScanKeys(parts[0] + Marker + parts[1] + Marker, ix.pathData.keys) else EmptyDict()
  }

  /** The (name, line) pairs of `_format_nested_array_content`, in emission order. */
  function NestedArrayEntries(ix: Index, path: string, level: nat): seq<(string, string)>
    requires TablesOk(ix.arrayElementFields)
  {
    var indent := Indent(level);
    var e1 := NestedArrayFieldsEntry(ix, path, indent);
    var scan := PathScan(ix, path);
    var e2 := EmitAll(ix, indent, e1, scan, scan.keys);
    if path in ix.arrayElementFields then
      var t := ix.arrayElementFields[path];
      EmitAll(ix, indent, e2, t, t.keys)
    else e2
  }

  /** `_format_nested_array_content` */
  function NestedArrayContent(ix: Index, path: string, level: nat): string
    requires TablesOk(ix.arrayElementFields)
  {
    Join(",\n", Lines(NestedArrayEntries(ix, path, level)))
  }

  // ------------------------------------------------------------------
  // Properties
  // ------------------------------------------------------------------

  lemma {:induction false} AddRegularOk(ix: Index, d: Dict<string, FieldInfo>, path: string, table: Dict<string, string>, names: seq<string>)
    requires forall n :: n in names ==> n in table.vals
    requires forall n :: n in table.vals ==> |table.vals[n]| > |path|
    requires FieldsOk(ix, path, d)
    ensures FieldsOk(ix, path, AddRegular(ix, d, table, names))
    decreases |names|
  {
    if |names| > 0 {
      AddRegularOk(ix, d, path, table, names[..|names| - 1]);
    }
  }

  lemma {:induction false} AddNestedArraysOk(ix: Index, d: Dict<string, FieldInfo>, path: string, nested: seq<string>)
    requires FieldsOk(ix, path, d)
    ensures FieldsOk(ix, path, AddNestedArrays(ix, d, nested))
    decreases |nested|
  {
    if |nested| > 0 {
      AddNestedArraysOk(ix, d, path, nested[..|nested| - 1]);
    }
  }

  lemma CollectArrayFieldsOk(ix: Index, path: string)
    requires TablesOk(ix.arrayElementFields)
    ensures FieldsOk(ix, path, CollectArrayFields(ix, path))
  {
    var d0 := match NestedFieldsOf(ix, path)
      case Some(nf) => EmptyDict<string, FieldInfo>().Put(FieldName(nf), NestedFieldInfo(nf))
      case None => EmptyDict();
    assert FieldsOk(ix, path, d0);
    if path in ix.arrayElementFields {
      var t := ix.arrayElementFields[path];
      AddRegularOk(ix, d0, path, t, t.keys);
    }
    var d1 := if path in ix.arrayElementFields
      then AddRegular(ix, d0, ix.arrayElementFields[path], ix.arrayElementFields[path].keys)
      else d0;
    AddNestedArraysOk(ix, d1, path, Get(ix.nestedArrays, path));
  }

  /**
   * The element body of an array lists each collected field name once, sorted by its
   * recorded order, as a stable sort (a permutation) of the collected names.
   */
  lemma ArrayFieldNamesSpec(ix: Index, path: string)
    requires TablesOk(ix.arrayElementFields)
    ensures var fields := CollectArrayFields(ix, path);
      var names := ArrayFieldNames(fields);
      NoDup(names) && multiset(names) == multiset(fields.keys) &&
      (forall n :: n in names <==> n in fields.vals) && SortedBy(names, FieldKey(fields))
  {
    var fields := CollectArrayFields(ix, path);
    CollectArrayFieldsOk(ix, path);
    var names := ArrayFieldNames(fields);
    SortByStable(fields.keys, FieldKey(fields));
    MultisetNoDup(fields.keys, names);
    forall n ensures n in names <==> n in fields.vals {
      assert n in names <==> n in multiset(names);
      assert n in fields.keys <==> n in multiset(fields.keys);
    }
  }

  /** The array's own nestedFields entry comes first unless a later source overwrote its name. */
  lemma NestedFieldFirst(ix: Index, path: string)
    requires TablesOk(ix.arrayElementFields)
    ensures var fields := CollectArrayFields(ix, path);
      var names := ArrayFieldNames(fields);
      NestedFieldsOf(ix, path).Some? &&
      FieldName(NestedFieldsOf(ix, path).value) in fields.vals &&
      fields.vals[FieldName(NestedFieldsOf(ix, path).value)].NestedFieldInfo? ==>
        |names| > 0 && names[0] == FieldName(NestedFieldsOf(ix, path).value)
  {
    var fields := CollectArrayFields(ix, path);
    var names := ArrayFieldNames(fields);
    if NestedFieldsOf(ix, path).Some? {
      var nfn := FieldName(NestedFieldsOf(ix, path).value);
      if nfn in fields.vals && fields.vals[nfn].NestedFieldInfo? {
        CollectArrayFieldsOk(ix, path);
        ArrayFieldNamesSpec(ix, path);
        var key := FieldKey(fields);
        assert key(nfn) == -1;
        forall j | 0 <= j < |names| && names[j] != nfn ensures key(names[j]) > key(nfn) {
          assert names[j] in fields.vals;
        }
        SortedLeastFirst(names, key, nfn);
      }
    }
  }

  /** Every line of an array element body begins with its indent and the field's name. */
  lemma FieldLineStarts(ix: Index, processed: set<string>, path: string, name: string, info: FieldInfo, level: nat)
    requires WellFormed(ix)
    requires info.Regular? ==> info.path in ix.pathData.vals && |info.path| > |path|
    ensures StartsWith(FieldLine(ix, processed, path, name, info, level), Indent(level) + name + ": ")
  {
    forall decl: string ensures StartsWith(Entry(Indent(level), name, decl), Indent(level) + name + ": ") {
      EntryStarts(Indent(level), name, decl);
    }
  }

  /** With distinct names and none handled yet, the loop emits one line per name, in order. */
  lemma {:induction false} FieldLinesSpec(ix: Index, processed: set<string>, path: string, fields: Dict<string, FieldInfo>,
                                          names: seq<string>, seen: set<string>, level: nat)
    requires WellFormed(ix) && FieldsOk(ix, path, fields)
    requires forall n :: n in names ==> n in fields.vals
    requires NoDup(names) && forall n :: n in names ==> n !in seen
    ensures |FieldLines(ix, processed, path, fields, names, seen, level)| == |names|
    ensures forall i :: 0 <= i < |names| ==>
      StartsWith(FieldLines(ix, processed, path, fields, names, seen, level)[i], Indent(level) + names[i] + ": ")
    decreases |names|
  {
    if |names| > 0 {
      var rest := names[1..];
      assert forall n :: n in rest ==> n in names && n != names[0];
      assert NoDup(rest);
      FieldLinesSpec(ix, processed, path, fields, rest, seen + {names[0]}, level);
      FieldLineStarts(ix, processed, path, names[0], fields.vals[names[0]], level);
      var r := FieldLines(ix, processed, path, fields, names, seen, level);
      assert r[1..] == FieldLines(ix, processed, path, fields, rest, seen + {names[0]}, level);
      forall i | 1 <= i < |names| ensures StartsWith(r[i], Indent(level) + names[i] + ": ") {
        assert r[i] == r[1..][i - 1] && names[i] == rest[i - 1];
      }
    }
  }

  /** One turn of the loop: a name already handled adds nothing, any other adds its line. */
  lemma FieldLinesStep(ix: Index, processed: set<string>, path: string, fields: Dict<string, FieldInfo>,
                       names: seq<string>, i: nat, seen: set<string>, level: nat)
    requires WellFormed(ix) && FieldsOk(ix, path, fields)
    requires i < |names| && forall n :: n in names ==> n in fields.vals
    ensures names[i] in seen ==>
      FieldLines(ix, processed, path, fields, names[i..], seen, level) == FieldLines(ix, processed, path, fields, names[i + 1..], seen, level)
    ensures names[i] !in seen ==>
      FieldLines(ix, processed, path, fields, names[i..], seen, level) ==
      [FieldLine(ix, processed, path, names[i], fields.vals[names[i]], level)] +
      FieldLines(ix, processed, path, fields, names[i + 1..], seen + {names[i]}, level)
  {
    assert names[i..][0] == names[i] && names[i..][1..] == names[i + 1..];
  }

  /**
   * `_format_array_struct_content` joins exactly one line per collected field name,
   * the i-th line declaring the i-th name of `ArrayFieldNames`, so no name is emitted twice.
   */
  lemma ArrayStructContentLines(ix: Index, processed: set<string>, path: string, level: nat)
    requires WellFormed(ix)
    ensures var names := ArrayFieldNames(CollectArrayFields(ix, path));
      NoDup(names) &&
      exists lines: seq<string> ::
        ArrayStructContent(ix, processed, path, level) == Join(",\n", lines) && |lines| == |names| &&
        forall i :: 0 <= i < |names| ==> StartsWith(lines[i], Indent(level) + names[i] + ": ")
  {
    var fields := CollectArrayFields(ix, path);
    CollectArrayFieldsOk(ix, path);
    ArrayFieldNamesSpec(ix, path);
    var names := ArrayFieldNames(fields);
    FieldLinesSpec(ix, processed, path, fields, names, {}, level);
    var lines := FieldLines(ix, processed, path, fields, names, {}, level);
    assert ArrayStructContent(ix, processed, path, level) == Join(",\n", lines);
  }

  /** A struct child's line begins with its indent and its last segment; an unindexed child gives "". */
  lemma StructChildStarts(ix: Index, processed: set<string>, child: string, level: nat)
    requires WellFormed(ix)
    ensures child in ix.pathData.vals ==>
      StartsWith(StructChild(ix, processed, child, level), Indent(level) + LastSegment(child) + ": ")
    ensures child !in ix.pathData.vals ==> StructChild(ix, processed, child, level) == ""
  {
    forall decl: string ensures StartsWith(Entry(Indent(level), LastSegment(child), decl), Indent(level) + LastSegment(child) + ": ") {
      EntryStarts(Indent(level), LastSegment(child), decl);
    }
  }

  /**
   * A struct body has one line per ordered child, in that order, each child once,
   * and each line declares its child by the child's last segment.
   */
  lemma StructContentLines(ix: Index, processed: set<string>, path: string, level: nat)
    requires WellFormed(ix)
    ensures var children := OrderedChildren(ix, processed, path);
      NoDup(children) &&
      exists lines: seq<string> ::
        StructContent(ix, processed, path, level) == Join(",\n", lines) && |lines| == |children| &&
        forall i :: 0 <= i < |children| ==>
          lines[i] == StructChild(ix, processed, children[i], level) &&
          StartsWith(lines[i], Indent(level) + LastSegment(children[i]) + ": ")
  {
    var children := OrderedChildren(ix, processed, path);
    OrderedChildrenSpec(ix, processed, path);
    var lines := ChildLines(ix, processed, path, children, level);
    forall i | 0 <= i < |children|
      ensures StartsWith(lines[i], Indent(level) + LastSegment(children[i]) + ": ")
    {
      assert children[i] in ix.pathData.keys;
      StructChildStarts(ix, processed, children[i], level);
    }
    assert StructContent(ix, processed, path, level) == Join(",\n", lines);
  }

  lemma NamesSnoc(acc: seq<(string, string)>, e: (string, string))
    ensures KeysOf(acc + [e]) == KeysOf(acc) + [e.0]
  {
  }

  /** Every emitted nested-array line declares its own name, and no name is emitted twice. */
  ghost predicate EntriesOk(entries: seq<(string, string)>, indent: string)
  {
    NoDup(KeysOf(entries)) &&
    forall i :: 0 <= i < |entries| ==> StartsWith(entries[i].1, indent + entries[i].0 + ": ")
  }

  lemma EmitFlatOk(ix: Index, indent: string, acc: seq<(string, string)>, name: string, path: string)
    requires EntriesOk(acc, indent)
    ensures EntriesOk(EmitFlat(ix, indent, acc, name, path), indent)
    ensures acc <= EmitFlat(ix, indent, acc, name, path)
  {
    if name !in KeysOf(acc) && path in ix.pathData.vals {
      var r := EmitFlat(ix, indent, acc, name, path);
      var item := ix.pathData.vals[path];
      EntryStarts(indent, name, TypeName(ix.helper, item.kind) + " " + Comment(ix, DocOf(item)));
      NamesSnoc(acc, r[|acc|]);
      var ns := KeysOf(r);
      forall i, j | 0 <= i < j < |ns| ensures ns[i] != ns[j] {
        if j == |acc| {
          assert ns[i] == KeysOf(acc)[i];
        }
      }
    }
  }

  lemma {:induction false} EmitAllOk(ix: Index, indent: string, acc: seq<(string, string)>, table: Dict<string, string>, names: seq<string>)
    requires forall n :: n in names ==> n in table.vals
    requires EntriesOk(acc, indent)
    ensures EntriesOk(EmitAll(ix, indent, acc, table, names), indent)
    ensures acc <= EmitAll(ix, indent, acc, table, names)
    decreases |names|
  {
    if |names| > 0 {
      var n := |names| - 1;
      assert forall m :: m in names[..n] ==> m in names;
      EmitAllOk(ix, indent, acc, table, names[..n]);
      EmitFlatOk(ix, indent, EmitAll(ix, indent, acc, table, names[..n]), names[n], table.vals[names[n]]);
    }
  }

  /**
   * `_format_nested_array_content` emits each element field name at most once, each
   * line declares its name, and the nestedFields line of the nested array, if it has
   * one, comes first.
   */
  lemma NestedArrayEntriesSpec(ix: Index, path: string, level: nat)
    requires TablesOk(ix.arrayElementFields)
    ensures EntriesOk(NestedArrayEntries(ix, path, level), Indent(level))
    ensures NestedArrayFieldsEntry(ix, path, Indent(level)) <= NestedArrayEntries(ix, path, level)
  {
    var indent := Indent(level);
    var e1 := NestedArrayFieldsEntry(ix, path, indent);
    forall name: string, decl: string ensures StartsWith(Entry(indent, name, decl), indent + name + ": ") {
      EntryStarts(indent, name, decl);
    }
    assert EntriesOk(e1, indent);
    var scan := PathScan(ix, path);
    EmitAllOk(ix, indent, e1, scan, scan.keys);
    var e2 := EmitAll(ix, indent, e1, scan, scan.keys);
    if path in ix.arrayElementFields {
      var t := ix.arrayElementFields[path];
      EmitAllOk(ix, indent, e2, t, t.keys);
    }
  }
}
