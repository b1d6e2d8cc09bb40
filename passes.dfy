/**
 * The top-level pass, the sweep over the remaining items and the final ADD statement
 * of `OrderPreservingGenerator.generate_sql`, with the formatters that mark paths
 * processed (`_format_struct`, `_format_dotted_path` and its array case). Each
 * returns its definition (if any) and the new processed set.
 */
module Passes {
  import opened Wrappers
  import opened Strings
  import opened Collections
  import opened Schema
  import opened Formatter
  import opened PathIndex
  import opened Tree
  import opened Render

  /** `if definition:` */
  predicate Truthy(d: Option<string>)
  {
    d.Some? && d.value != ""
  }

  /** `_format_struct(path, item)` */
  function FormatStruct(ix: Index, processed: set<string>, path: string, item: Descriptor): (r: (Option<string>, set<string>))
    requires WellFormed(ix)
    ensures processed <= r.1
    ensures path in processed <==> r.0.None?
    ensures r.0.Some? ==> path in r.1 && forall c :: c in DirectChildren(ix, processed, path) ==> c in r.1
  {
    if path in processed then (None, processed)
    else
      var children := DirectChildren(ix, processed, path);
      var fp := FormatPath(path);
      var comment := Comment(ix, DocOf(item));
      var after := FormatAfterClause(item);
      if children == [] then (Some("    " + fp + " struct<> " + comment + after), processed + {path})
      else
        var content := StructContent(ix, processed, path, 2);
        MarkChildrenSpec(ix, processed + {path}, children);
        (Some("    " + fp + " struct<\n" + content + "\n    > " + comment + after),
         MarkProcessedTree(ix, processed, path, children))
  }

  /** Some proper prefix of the path is an indexed object with children (a struct still to come). */
  predicate SomeStructParent(ix: Index, parts: seq<string>)
  {
    exists i :: 1 <= i < |parts| && Join(".", parts[..i]) in ix.pathData.vals &&
      ix.pathData.vals[Join(".", parts[..i])].kind == "object" &&
      HasChildren(ix.pathData.keys, Join(".", parts[..i]))
  }

  /** `_format_dotted_object` */
  function DottedObject(ix: Index, processed: set<string>, path: string, fp: string, comment: string, after: string): string
    requires WellFormed(ix)
  {
    var content := if HasChildren(ix.pathData.keys, path) then StructContent(ix, processed, path, 2) else "";
    if HasChildren(ix.pathData.keys, path) && !IsBlank(content) then
      "    " + fp + " struct<\n" + content + "\n    > " + comment + after
    else "    " + fp + " struct<> " + comment + after
  }

  /** `_format_dotted_array`: an element body, when non-blank, also marks the element paths. */
  function DottedArray(ix: Index, processed: set<string>, path: string, fp: string, item: Descriptor, comment: string, after: string): (r: (string, set<string>))
    requires WellFormed(ix)
    ensures processed <= r.1
    ensures (item.nestedFields.Some? || HasElements(ix, path)) && !IsBlank(ArrayStructContent(ix, processed, path, 3)) ==>
      ElementPathsMarked(ix, path, r.1)
    ensures !((item.nestedFields.Some? || HasElements(ix, path)) && !IsBlank(ArrayStructContent(ix, processed, path, 3))) ==>
      r.1 == processed
  {
    var content := ArrayStructContent(ix, processed, path, 3);
    if (item.nestedFields.Some? || HasElements(ix, path)) && !IsBlank(content) then
      MarkArrayElementsCovers(ix, processed, path);
      ("    " + fp + " array<struct<\n" + content + "\n    >> " + comment + after, MarkArrayElements(ix, processed, path))
    else ("    " + fp + " array<" + item.arrType.GetOr("string") + "> " + comment + after, processed)
  }

  /** `_format_dotted_path(item)` */
  function DottedPath(ix: Index, processed: set<string>, item: Descriptor): (r: (Option<string>, set<string>))
    requires WellFormed(ix)
    ensures processed <= r.1
    ensures r.0.None? ==> r.1 == processed
  {
    var path := item.path;
    if Contains(path, Marker) && (path in processed || SplitElementPath(path).0 in processed) then (None, processed)
    else
      var parts := Split(path, ".");
      if |parts| > 1 && (SomeProperPrefixIn(parts, processed) || SomeStructParent(ix, parts)) then (None, processed)
      else
        var comment := Comment(ix, DocOf(item));
        var after := FormatAfterClause(item);
        var fp := FormatPath(path);
        if item.kind == "object" then (Some(DottedObject(ix, processed, path, fp, comment, after)), processed)
        else if item.kind == "array" then
          var (line, processed') := DottedArray(ix, processed, path, fp, item, comment, after);
          (Some(line), processed')
        else (Some("    " + fp + " " + TypeName(ix.helper, item.kind) + " " + comment + after), processed)
  }

  /** One iteration of `_process_top_level_items`. */
  function TopLevelStep(ix: Index, defs: seq<string>, processed: set<string>, item: Descriptor): (r: (seq<string>, set<string>))
    requires WellFormed(ix)
    ensures processed <= r.1
    ensures defs <= r.0 && |r.0| <= |defs| + 1
  {
    var path := item.path;
    if path in processed then (defs, processed)
    else if item.kind == "object" && HasChildren(ix.pathData.keys, path) then
      var (d, processed') := FormatStruct(ix, processed, path, item);
      if Truthy(d) then (defs + [d.value], MarkProcessed(ix.pathData.keys, processed', path)) else (defs, processed')
    else
      var (d, processed') := DottedPath(ix, processed, item);
      if Truthy(d) then (defs + [d.value], processed' + {path}) else (defs, processed')
  }

  /** `_process_top_level_items` over `items`, from the given definitions and processed set. */
  function TopLevelPass(ix: Index, defs: seq<string>, processed: set<string>, items: seq<Descriptor>): (r: (seq<string>, set<string>))
    requires WellFormed(ix)
    ensures processed <= r.1
    ensures defs <= r.0 && |r.0| <= |defs| + |items|
    decreases |items|
  {
    if |items| == 0 then (defs, processed)
    else
      var n := |items| - 1;
      var (defs', processed') := TopLevelPass(ix, defs, processed, items[..n]);
      TopLevelStep(ix, defs', processed', items[n])
  }

  /** `_get_remaining_items`: input items neither processed nor under a processed path. */
  function RemainingItems(processed: set<string>, items: seq<Descriptor>): (r: seq<Descriptor>)
    ensures forall it :: it in r <==> it in items && it.path !in processed && !IsChildOfProcessed(processed, it.path)
    decreases |items|
  {
    if |items| == 0 then []
    else
      var n := |items| - 1;
      var it := items[n];
      assert items == items[..n] + [it];
      RemainingItems(processed, items[..n]) +
        (if it.path !in processed && !IsChildOfProcessed(processed, it.path) then [it] else [])
  }

  /** The sort key of `_process_remaining_items`. */
  function ItemKey(ix: Index): Descriptor -> int
  {
    (it: Descriptor) => OrderOf(ix, it.path)
  }

  /** The loop of `_process_remaining_items` over the sorted remaining items. */
  function RemainingPass(ix: Index, defs: seq<string>, processed: set<string>, items: seq<Descriptor>): (r: (seq<string>, set<string>))
    requires WellFormed(ix)
    ensures processed <= r.1
    ensures defs <= r.0 && |r.0| <= |defs| + |items|
    decreases |items|
  {
    if |items| == 0 then (defs, processed)
    else
      var n := |items| - 1;
      var (defs', processed') := RemainingPass(ix, defs, processed, items[..n]);
      var (d, processed'') := DottedPath(ix, processed', items[n]);
      if Truthy(d) then (defs' + [d.value], processed'' + {items[n].path}) else (defs', processed'')
  }

  const EmptyAdd: string := "ALTER TABLE {table_name} \n    ADD COLUMNS ()"
  const AddHead: string := "ALTER TABLE {table_name} \n    ADD COLUMNS ("

  /** The statement `generate_sql` returns for a list of column definitions. */
  function AddStatement(defs: seq<string>): (r: string)
    ensures StartsWith(r, AddHead)
    ensures r == EmptyAdd <==> defs == []
  {
    if defs == [] then EmptyAdd
    else
      var r := AddHead + "\n" + Join(",\n", defs) + "\n    )";
      assert r[|AddHead|] == '\n' && EmptyAdd[|AddHead|] == ')';
      r
  }

  /** The two rendering passes over a built index, from an empty processed set. */
  function Definitions(ix: Index): seq<string>
    requires WellFormed(ix)
  {
    var (defs, processed) := TopLevelPass(ix, [], {}, ix.topLevelItems);
    var remaining := SortBy(RemainingItems(processed, ix.input), ItemKey(ix));
    defs + RemainingPass(ix, [], processed, remaining).0
  }

  /** `OrderPreservingGenerator(input).generate_sql()`: exactly one ADD statement. */
  function GenerateAdd(h: Helper, input: seq<Descriptor>): string
  {
    var ix := BuildIndex(h, input);
    BuildIndexWellFormed(h, input);
    AddStatement(Definitions(ix))
  }

  // ------------------------------------------------------------------
  // Properties
  // ------------------------------------------------------------------

  /** `_format_dotted_path` gives nothing for a path with a processed proper prefix. */
  lemma DottedPathSkipsProcessedParent(ix: Index, processed: set<string>, item: Descriptor, i: nat)
    requires WellFormed(ix)
    requires 1 <= i < |Split(item.path, ".")| && Join(".", Split(item.path, ".")[..i]) in processed
    ensures DottedPath(ix, processed, item) == (None, processed)
  {
  }

  /** `_format_dotted_path` gives nothing for an element path already handled with its array. */
  lemma DottedPathSkipsHandledElement(ix: Index, processed: set<string>, item: Descriptor)
    requires WellFormed(ix)
    requires Contains(item.path, Marker)
    requires item.path in processed || SplitElementPath(item.path).0 in processed
    ensures DottedPath(ix, processed, item) == (None, processed)
  {
  }

  /**
   * Once a path is marked with `_mark_processed`, the sweep never sees it or a key
   * under it again, so a struct emitted at top level is not emitted a second time.
   */
  lemma SweepSkipsMarkedTree(ix: Index, processed: set<string>, parent: string, later: set<string>)
    requires forall it :: it in ix.input ==> it.path in ix.pathData.keys
    requires MarkProcessed(ix.pathData.keys, processed, parent) <= later
    ensures forall it :: it in RemainingItems(later, ix.input) ==>
      it.path != parent && !StartsWith(it.path, parent + ".")
  {
    MarkProcessedSpec(ix.pathData.keys, processed, parent);
  }

  /**
   * Once an array's element paths are marked (as `_format_dotted_array` does when it emits
   * an element body), the sweep never sees an indexed element path of that array or of its
   * nested arrays.
   */
  lemma SweepSkipsMarkedElements(ix: Index, path: string, marked: set<string>, later: set<string>)
    requires ElementPathsMarked(ix, path, marked) && marked <= later
    ensures forall it :: it in RemainingItems(later, ix.input) ==>
      !(ElementPathOf(ix, path, it.path) && it.path in ix.pathData.vals)
  {
    forall it | it in RemainingItems(later, ix.input)
      ensures !(ElementPathOf(ix, path, it.path) && it.path in ix.pathData.vals)
    {
      assert it.path !in later;
    }
  }

  /** The sweep only visits input items that are neither processed nor under a processed path. */
  lemma RemainingSorted(ix: Index, processed: set<string>)
    ensures var r := SortBy(RemainingItems(processed, ix.input), ItemKey(ix));
      SortedBy(r, ItemKey(ix)) && multiset(r) == multiset(RemainingItems(processed, ix.input)) &&
      forall it :: it in r ==> it in ix.input && it.path !in processed && !IsChildOfProcessed(processed, it.path)
  {
    var items := RemainingItems(processed, ix.input);
    SortByStable(items, ItemKey(ix));
    var r := SortBy(items, ItemKey(ix));
    forall it | it in r ensures it in items {
      assert it in multiset(r);
    }
  }

  /** Every input path is an index key, so the sweep's items are keys. */
  lemma InputPathsAreKeys(h: Helper, input: seq<Descriptor>)
    ensures forall it :: it in input ==> it.path in BuildIndex(h, input).pathData.keys
  {
    PathDataFirstSeenLastWrite(input);
    DedupFirstSeen(Paths(input));
    forall it | it in input ensures it.path in Paths(input) {
      var i :| 0 <= i < |input| && input[i] == it;
      assert Paths(input)[i] == it.path;
    }
  }

  /** `generate_sql` returns the empty ADD literal exactly when no definition was produced. */
  lemma GenerateAddEmpty(h: Helper, input: seq<Descriptor>)
    ensures WellFormed(BuildIndex(h, input)) &&
      (GenerateAdd(h, input) == EmptyAdd <==> Definitions(BuildIndex(h, input)) == [])
  {
    BuildIndexWellFormed(h, input);
  }
}
