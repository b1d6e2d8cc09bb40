/**
 * The indexing phase of `OrderPreservingGenerator` (`_preprocess_input` and
 * `_process_array_elements`), written as functions of the input list. Each lookup
 * structure the generator builds in its loops is the value of one of these
 * functions; the generator's methods are proved to compute exactly these values.
 */
module PathIndex {
  import opened Wrappers
  import opened Strings
  import opened Collections
  import opened Schema

  /** The path segment that stands for "an element of this array". */
  const Marker: string := ".element."

  /** Everything the indexing phase builds, next to the input it was built from. */
  datatype Index = Index(
    helper: Helper,
    input: seq<Descriptor>,
    originalOrder: map<string, nat>,
    pathData: Dict<string, Descriptor>,
    topLevelItems: seq<Descriptor>,
    arrayNestedFields: map<string, NestedField>,
    elementFields: map<string, seq<string>>,
    elementFieldOrder: map<string, seq<string>>,
    fieldOrder: map<string, seq<string>>,
    arrayElementFields: map<string, Dict<string, string>>,
    nestedArrays: map<string, seq<string>>)

  function Paths(items: seq<Descriptor>): (ps: seq<string>)
    ensures |ps| == |items| && forall i :: 0 <= i < |items| ==> ps[i] == items[i].path
  {
    seq(|items|, i requires 0 <= i < |items| => items[i].path)
  }

  // ------------------------------------------------------------------
  // original_order
  // ------------------------------------------------------------------

  /** `_track_original_order`: each path mapped to its index, a later index overwriting. */
  function OriginalOrderOf(items: seq<Descriptor>): map<string, nat>
    decreases |items|
  {
    if |items| == 0 then map[]
    else
      var n := |items| - 1;
      OriginalOrderOf(items[..n])[items[n].path := n]
  }

  /** `original_order` holds every input path, at the index of its LAST occurrence. */
  lemma {:induction false} OriginalOrderIsLastIndex(items: seq<Descriptor>)
    ensures forall p :: p in OriginalOrderOf(items) <==> p in Paths(items)
    ensures forall p :: p in OriginalOrderOf(items) ==>
      OriginalOrderOf(items)[p] < |items| && items[OriginalOrderOf(items)[p]].path == p &&
      forall j :: OriginalOrderOf(items)[p] < j < |items| ==> items[j].path != p
    decreases |items|
  {
    if |items| > 0 {
      var n := |items| - 1;
      var init := items[..n];
      OriginalOrderIsLastIndex(init);
      assert Paths(items) == Paths(init) + [items[n].path];
      forall p | p in OriginalOrderOf(items) && p != items[n].path
        ensures OriginalOrderOf(items)[p] < |items| && items[OriginalOrderOf(items)[p]].path == p &&
          forall j :: OriginalOrderOf(items)[p] < j < |items| ==> items[j].path != p
      {
        var i := OriginalOrderOf(init)[p];
        assert init[i] == items[i];
        forall j | i < j < |items| ensures items[j].path != p {
          if j < n {
            assert init[j] == items[j];
          }
        }
      }
    }
  }

  // ------------------------------------------------------------------
  // path_data
  // ------------------------------------------------------------------

  function PathPairs(items: seq<Descriptor>): (ps: seq<(string, Descriptor)>)
    ensures |ps| == |items| && forall i :: 0 <= i < |items| ==> ps[i] == (items[i].path, items[i])
  {
    seq(|items|, i requires 0 <= i < |items| => (items[i].path, items[i]))
  }

  /** `self.path_data[path] = item` for every input item in turn. */
  function PathDataOf(items: seq<Descriptor>): Dict<string, Descriptor>
  {
    PutAll(PathPairs(items))
  }

  /**
   * `path_data`'s keys are the distinct input paths in first-seen order, and each
   * path holds its last input item (the item `original_order` points at).
   */
  lemma PathDataFirstSeenLastWrite(items: seq<Descriptor>)
    ensures PathDataOf(items).Valid()
    ensures PathDataOf(items).keys == Dedup(Paths(items))
    ensures forall p :: p in OriginalOrderOf(items) ==>
      OriginalOrderOf(items)[p] < |items| &&
      p in PathDataOf(items).vals && PathDataOf(items).vals[p] == items[OriginalOrderOf(items)[p]]
  {
    var ps := PathPairs(items);
    PutAllOrderAndLastWrite(ps);
    assert KeysOf(ps) == Paths(items);
    OriginalOrderIsLastIndex(items);
    forall p | p in OriginalOrderOf(items)
      ensures OriginalOrderOf(items)[p] < |items| && p in PathDataOf(items).vals && PathDataOf(items).vals[p] == items[OriginalOrderOf(items)[p]]
    {
      var i := OriginalOrderOf(items)[p];
      assert IsLastWrite(ps, i);
    }
  }

  // ------------------------------------------------------------------
  // top_level_items
  // ------------------------------------------------------------------

  /** `path.split(".")[0]` */
  function Head(path: string): string
  {
    Split(path, ".")[0]
  }

  function Heads(items: seq<Descriptor>): (hs: seq<string>)
    ensures |hs| == |items| && forall i :: 0 <= i < |items| ==> hs[i] == Head(items[i].path)
  {
    seq(|items|, i requires 0 <= i < |items| => Head(items[i].path))
  }

  /** `top_level_paths`: the first segments seen so far. */
  function HeadSet(items: seq<Descriptor>): set<string>
    decreases |items|
  {
    if |items| == 0 then {} else HeadSet(items[..|items| - 1]) + {Head(items[|items| - 1].path)}
  }

  /** `top_level_items`: an item is kept when its first segment has not been seen before. */
  function TopLevelOf(items: seq<Descriptor>): seq<Descriptor>
    decreases |items|
  {
    if |items| == 0 then []
    else
      var n := |items| - 1;
      if Head(items[n].path) in HeadSet(items[..n]) then TopLevelOf(items[..n])
      else TopLevelOf(items[..n]) + [items[n]]
  }

  lemma {:induction false} HeadSetIsHeads(items: seq<Descriptor>)
    ensures forall h :: h in HeadSet(items) <==> h in Heads(items)
    decreases |items|
  {
    if |items| > 0 {
      var n := |items| - 1;
      HeadSetIsHeads(items[..n]);
      assert Heads(items) == Heads(items[..n]) + [Head(items[n].path)];
    }
  }

  lemma HeadsSnoc(items: seq<Descriptor>)
    requires |items| > 0
    ensures Heads(items) == Heads(items[..|items| - 1]) + [Head(items[|items| - 1].path)]
  {
    var n := |items| - 1;
    var a, b := Heads(items), Heads(items[..n]) + [Head(items[n].path)];
    forall i | 0 <= i < |a| ensures a[i] == b[i] {
      if i < n {
        assert items[..n][i] == items[i];
      }
    }
  }

  lemma TopLevelSnoc(items: seq<Descriptor>)
    requires |items| > 0
    ensures Heads(items) == Heads(items[..|items| - 1]) + [Head(items[|items| - 1].path)]
    ensures TopLevelOf(items) == TopLevelOf(items[..|items| - 1]) +
      (if Head(items[|items| - 1].path) in Heads(items[..|items| - 1]) then [] else [items[|items| - 1]])
  {
    HeadsSnoc(items);
    var n := |items| - 1;
    var h := Head(items[n].path);
    HeadSetIsHeads(items[..n]);
    assert h in HeadSet(items[..n]) <==> h in Heads(items[..n]);
  }

  lemma HeadsAppendOne(t: seq<Descriptor>, d: Descriptor)
    ensures Heads(t + [d]) == Heads(t) + [Head(d.path)]
  {
    var a, b := Heads(t + [d]), Heads(t) + [Head(d.path)];
    assert |a| == |b|;
    forall i | 0 <= i < |a| ensures a[i] == b[i] {
      if i < |t| {
        assert (t + [d])[i] == t[i];
      }
    }
  }

  /** The first segments of `top_level_items` are the input's first segments, deduplicated. */
  lemma {:induction false} TopLevelHeads(items: seq<Descriptor>)
    ensures Heads(TopLevelOf(items)) == Dedup(Heads(items))
    decreases |items|
  {
    if |items| > 0 {
      var n := |items| - 1;
      var init := items[..n];
      var h := Head(items[n].path);
      var hs0 := Heads(init);
      TopLevelHeads(init);
      TopLevelSnoc(items);
      DedupSnoc(hs0, h);
      DedupMembers(hs0);
      assert h in Dedup(hs0) <==> h in hs0;
      var t0 := TopLevelOf(init);
      HeadsAppendOne(t0, items[n]);
    }
  }

  /** Each item of `top_level_items` is the first input item with its first segment. */
  lemma {:induction false} TopLevelFirstItem(items: seq<Descriptor>)
    ensures forall j :: 0 <= j < |TopLevelOf(items)| ==>
      Head(TopLevelOf(items)[j].path) in Heads(items) &&
      TopLevelOf(items)[j] == items[FirstIndex(Heads(items), Head(TopLevelOf(items)[j].path))]
    decreases |items|
  {
    if |items| > 0 {
      var n := |items| - 1;
      var init := items[..n];
      var h := Head(items[n].path);
      TopLevelFirstItem(init);
      TopLevelSnoc(items);
      var hs := Heads(items);
      assert hs[..n] == Heads(init);
      var t0 := TopLevelOf(init);
      var t := TopLevelOf(items);
      forall j | 0 <= j < |t| ensures Head(t[j].path) in hs && t[j] == items[FirstIndex(hs, Head(t[j].path))] {
        if j < |t0| {
          var hj := Head(t0[j].path);
          assert t[j] == t0[j];
          FirstIndexPrefix(hs, n, hj);
          assert init[FirstIndex(Heads(init), hj)] == items[FirstIndex(Heads(init), hj)];
        } else {
          assert t[j] == items[n] && h !in hs[..n];
          FirstIndexUnique(hs, h, n);
        }
      }
    }
  }

  /**
   * `top_level_items` has exactly one item per distinct first segment, in the order
   * those segments first appear, and that item is the first input item with it.
   */
  lemma TopLevelFirstSeen(items: seq<Descriptor>)
    ensures NoDup(Heads(TopLevelOf(items)))
    ensures forall h :: h in Heads(TopLevelOf(items)) <==> h in Heads(items)
    ensures forall i, j :: 0 <= i < j < |TopLevelOf(items)| ==>
      FirstIndex(Heads(items), Head(TopLevelOf(items)[i].path)) < FirstIndex(Heads(items), Head(TopLevelOf(items)[j].path))
    ensures forall j :: 0 <= j < |TopLevelOf(items)| ==>
      Head(TopLevelOf(items)[j].path) in Heads(items) &&
      TopLevelOf(items)[j] == items[FirstIndex(Heads(items), Head(TopLevelOf(items)[j].path))]
  {
    TopLevelHeads(items);
    DedupFirstSeen(Heads(items));
    TopLevelFirstItem(items);
    var t := TopLevelOf(items);
    forall i, j | 0 <= i < j < |t|
      ensures FirstIndex(Heads(items), Head(t[i].path)) < FirstIndex(Heads(items), Head(t[j].path))
    {
      assert Heads(t)[i] == Head(t[i].path) && Heads(t)[j] == Head(t[j].path);
    }
  }

  // ------------------------------------------------------------------
  // array_nested_fields
  // ------------------------------------------------------------------

  /** `_process_array_nested_fields`: arrays with a `nestedFields` object, a later one overwriting. */
  function ArrayNestedFieldsOf(items: seq<Descriptor>): map<string, NestedField>
    decreases |items|
  {
    if |items| == 0 then map[]
    else
      var n := |items| - 1;
      var m := ArrayNestedFieldsOf(items[..n]);
      if items[n].kind == "array" && items[n].nestedFields.Some? then m[items[n].path := items[n].nestedFields.value]
      else m
  }

  /** The items `_process_array_nested_fields` records: arrays carrying a `nestedFields` object. */
  predicate HasNestedFields(d: Descriptor)
  {
    d.kind == "array" && d.nestedFields.Some?
  }

  /** `array_nested_fields` holds exactly the paths of the arrays with a `nestedFields` object. */
  lemma {:induction false} ArrayNestedFieldsKeys(items: seq<Descriptor>)
    ensures forall p :: p in ArrayNestedFieldsOf(items) <==>
      exists i :: 0 <= i < |items| && items[i].path == p && HasNestedFields(items[i])
    decreases |items|
  {
    if |items| > 0 {
      var n := |items| - 1;
      var pre := items[..n];
      ArrayNestedFieldsKeys(pre);
      assert forall i :: 0 <= i < n ==> pre[i] == items[i];
    }
  }

  /** Each path of `array_nested_fields` holds the object of the LAST array item with that path. */
  lemma {:induction false} ArrayNestedFieldsLastWrite(items: seq<Descriptor>)
    ensures forall p :: p in ArrayNestedFieldsOf(items) ==>
      exists i :: 0 <= i < |items| && items[i].path == p && HasNestedFields(items[i]) &&
        ArrayNestedFieldsOf(items)[p] == items[i].nestedFields.value &&
        forall j :: i < j < |items| && items[j].path == p ==> !HasNestedFields(items[j])
    decreases |items|
  {
    if |items| > 0 {
      var n := |items| - 1;
      var pre := items[..n];
      ArrayNestedFieldsLastWrite(pre);
      var m := ArrayNestedFieldsOf(items);
      forall p | p in m
        ensures exists i ::
                  0 <= i < |items| && items[i].path == p && HasNestedFields(items[i]) &&
                  m[p] == items[i].nestedFields.value &&
                  forall j :: i < j < |items| && items[j].path == p ==> !HasNestedFields(items[j])
      {
        if HasNestedFields(items[n]) && items[n].path == p {
          assert m[p] == items[n].nestedFields.value;
        } else {
          assert p in ArrayNestedFieldsOf(pre) && m[p] == ArrayNestedFieldsOf(pre)[p];
          var i :| 0 <= i < |pre| && pre[i].path == p && HasNestedFields(pre[i]) &&
            ArrayNestedFieldsOf(pre)[p] == pre[i].nestedFields.value &&
            forall j :: i < j < |pre| && pre[j].path == p ==> !HasNestedFields(pre[j]);
          assert items[i] == pre[i];
          assert forall j :: i < j < n ==> items[j] == pre[j];
        }
      }
    }
  }

  // ------------------------------------------------------------------
  // element_fields, element_field_order
  // ------------------------------------------------------------------

  /** `_split_element_path`: the array path before the first `.element.` and everything after it. */
  function SplitElementPath(path: string): (r: (string, string))
    requires Contains(path, Marker)
    ensures r.0 + Marker + r.1 == path
    ensures !Contains(r.0, Marker)
  {
    var parts := SplitOnce(path, Marker);
    var i := Find(path, Marker).value;
    assert parts == [path[..i], path[i + |Marker|..]];
    assert path == path[..i] + path[i..i + |Marker|] + path[i + |Marker|..];
    SplitPartsFree(path, Marker);
    (parts[0], parts[1])
  }

  /** The (array path, element field) pairs of the element paths, in input order. */
  function ElementPairs(items: seq<Descriptor>): seq<(string, string)>
    decreases |items|
  {
    if |items| == 0 then []
    else
      var n := |items| - 1;
      var p := items[n].path;
      ElementPairs(items[..n]) + (if Contains(p, Marker) then [SplitElementPath(p)] else [])
  }

  /** `_process_element_path_fields`: both `element_fields` and `element_field_order` are this. */
  function ElementFieldsOf(items: seq<Descriptor>): map<string, seq<string>>
  {
    Group(ElementPairs(items))
  }

  /** Each `element_fields` list is duplicate-free and in first-seen order. */
  lemma ElementFieldsFirstSeen(items: seq<Descriptor>, arr: string)
    ensures (arr in ElementFieldsOf(items)) <==> |Stream(ElementPairs(items), arr)| > 0
    ensures NoDup(Get(ElementFieldsOf(items), arr))
    ensures forall f :: f in Get(ElementFieldsOf(items), arr) <==> f in Stream(ElementPairs(items), arr)
    ensures forall i, j :: 0 <= i < j < |Get(ElementFieldsOf(items), arr)| ==>
      FirstIndex(Stream(ElementPairs(items), arr), Get(ElementFieldsOf(items), arr)[i]) <
      FirstIndex(Stream(ElementPairs(items), arr), Get(ElementFieldsOf(items), arr)[j])
  {
    GroupFirstSeen(ElementPairs(items), arr);
  }

  // ------------------------------------------------------------------
  // field_order
  // ------------------------------------------------------------------

  /** `".".join(parts[:i]) if i > 0 else ""` */
  function ParentOf(parts: seq<string>, i: nat): string
    requires i <= |parts|
  {
    if i > 0 then Join(".", parts[..i]) else ""
  }

  /** The (parent, segment) pairs of the first `n` levels of one path. */
  function LevelPairs(parts: seq<string>, n: nat): (ps: seq<(string, string)>)
    requires n <= |parts|
    ensures |ps| == n && forall i :: 0 <= i < n ==> ps[i] == (ParentOf(parts, i), parts[i])
    decreases n
  {
    if n == 0 then [] else LevelPairs(parts, n - 1) + [(ParentOf(parts, n - 1), parts[n - 1])]
  }

  /** One more level of a path extends the pairs seen so far by one pair. */
  lemma LevelPairsStep(pre: seq<(string, string)>, parts: seq<string>, j: nat)
    requires j < |parts|
    ensures pre + LevelPairs(parts, j + 1) == (pre + LevelPairs(parts, j)) + [(ParentOf(parts, j), parts[j])]
  {
    assert LevelPairs(parts, j + 1) == LevelPairs(parts, j) + [(ParentOf(parts, j), parts[j])];
  }

  /** Every (parent, segment) pair of every input path, in input order. */
  function HierarchyPairs(items: seq<Descriptor>): seq<(string, string)>
    decreases |items|
  {
    if |items| == 0 then []
    else
      var n := |items| - 1;
      var parts := Split(items[n].path, ".");
      HierarchyPairs(items[..n]) + LevelPairs(parts, |parts|)
  }

  /** `_build_field_order_hierarchy` applied to every input path. */
  function FieldOrderOf(items: seq<Descriptor>): map<string, seq<string>>
  {
    Group(HierarchyPairs(items))
  }

  /**
   * Each `field_order[parent]` list holds the segments that follow `parent` in the
   * input paths, each once, in first-seen order.
   */
  lemma FieldOrderFirstSeen(items: seq<Descriptor>, parent: string)
    ensures (parent in FieldOrderOf(items)) <==> |Stream(HierarchyPairs(items), parent)| > 0
    ensures NoDup(Get(FieldOrderOf(items), parent))
    ensures forall f :: f in Get(FieldOrderOf(items), parent) <==> f in Stream(HierarchyPairs(items), parent)
    ensures forall i, j :: 0 <= i < j < |Get(FieldOrderOf(items), parent)| ==>
      FirstIndex(Stream(HierarchyPairs(items), parent), Get(FieldOrderOf(items), parent)[i]) <
      FirstIndex(Stream(HierarchyPairs(items), parent), Get(FieldOrderOf(items), parent)[j])
  {
    GroupFirstSeen(HierarchyPairs(items), parent);
  }

  // ------------------------------------------------------------------
  // array_element_fields, nested_arrays
  // ------------------------------------------------------------------

  /** `array_element_fields` and `nested_arrays` as `_process_element_path` leaves them. */
  datatype Tables = Tables(fields: map<string, Dict<string, string>>, nested: map<string, seq<string>>)

  /** `if k not in m: m[k] = {}` */
  function EnsureTable(m: map<string, Dict<string, string>>, k: string): (r: map<string, Dict<string, string>>)
    ensures k in r && r.Keys == m.Keys + {k}
    ensures forall j :: j in m ==> r[j] == m[j]
    ensures k !in m ==> r[k] == EmptyDict()
  {
    if k in m then m else m[k := EmptyDict()]
  }

  /** `m[k][name] = path` */
  function PutField(m: map<string, Dict<string, string>>, k: string, name: string, path: string): map<string, Dict<string, string>>
    requires k in m
  {
    m[k := m[k].Put(name, path)]
  }

  /** `_process_multilevel_element_path`: a path with two or more `.element.` segments. */
  function MultilevelStep(t: Tables, path: string, segs: seq<string>, base: string): Tables
    requires |segs| > 2
  {
    var first := SplitOnce(segs[1], ".");
    var nested := base + Marker + first[0];
    var nestedArrays := AddUnder(t.nested, base, nested);
    var fields := EnsureTable(t.fields, nested);
    if |segs| == 3 then Tables(PutField(fields, nested, segs[2], path), nestedArrays)
    else if |first| > 1 then Tables(PutField(fields, nested, SplitOnce(first[1], ".")[0], path), nestedArrays)
    else Tables(fields, nestedArrays)
  }

  /** `_process_simple_element_path`: a path with one `.element.` segment. */
  function SimpleStep(t: Tables, path: string, segs: seq<string>, base: string): Tables
    requires |segs| == 2 && base in t.fields
  {
    Tables(PutField(t.fields, base, SplitOnce(segs[1], ".")[0], path), t.nested)
  }

  /** `_process_element_path` */
  function ElementPathStep(t: Tables, path: string): Tables
  {
    var segs := Split(path, Marker);
    var base := segs[0];
    var t' := Tables(EnsureTable(t.fields, base), t.nested);
    if |segs| > 2 then MultilevelStep(t', path, segs, base)
    else if |segs| == 2 then SimpleStep(t', path, segs, base)
    else t'
  }

  function ArrayElementsOf(paths: seq<string>): Tables
    decreases |paths|
  {
    if |paths| == 0 then Tables(map[], map[])
    else ElementPathStep(ArrayElementsOf(paths[..|paths| - 1]), paths[|paths| - 1])
  }

  /** `[path for path in keys if ".element." in path]` */
  function ElementPaths(keys: seq<string>): (r: seq<string>)
    ensures forall p :: p in r <==> p in keys && Contains(p, Marker)
    decreases |keys|
  {
    if |keys| == 0 then []
    else
      var n := |keys| - 1;
      assert keys == keys[..n] + [keys[n]];
      ElementPaths(keys[..n]) + (if Contains(keys[n], Marker) then [keys[n]] else [])
  }

  /** The sort key of `_process_array_elements`: how many `.element.` a path has. */
  function Nesting(p: string): int
  {
    Count(p, Marker)
  }

  /** `_process_array_elements`: element paths handled outer arrays first, ties in key order. */
  function ArrayTablesOf(keys: seq<string>): Tables
  {
    ArrayElementsOf(SortBy(ElementPaths(keys), Nesting))
  }

  // ------------------------------------------------------------------
  // The whole index
  // ------------------------------------------------------------------

  /** `_preprocess_input` followed by `_process_array_elements`. */
  function BuildIndex(h: Helper, input: seq<Descriptor>): Index
  {
    var pathData := PathDataOf(input);
    var tables := ArrayTablesOf(pathData.keys);
    Index(h, input, OriginalOrderOf(input), pathData, TopLevelOf(input), ArrayNestedFieldsOf(input),
      ElementFieldsOf(input), ElementFieldsOf(input), FieldOrderOf(input), tables.fields, tables.nested)
  }

  /** Every element table is a well-formed dict and maps a name to a path longer than its array. */
  ghost predicate TablesOk(fields: map<string, Dict<string, string>>)
  {
    (forall k :: k in fields ==> fields[k].Valid()) &&
    (forall k, f :: k in fields && f in fields[k].vals ==> |fields[k].vals[f]| > |k|)
  }

  /** What the rendering phase relies on from the index. */
  ghost predicate WellFormed(ix: Index)
  {
    ix.pathData.Valid() &&
    TablesOk(ix.arrayElementFields) &&
    (forall k :: k in ix.fieldOrder ==> NoDup(ix.fieldOrder[k]))
  }

  lemma PutFieldOk(m: map<string, Dict<string, string>>, k: string, name: string, path: string)
    requires TablesOk(m) && k in m && |path| > |k|
    ensures TablesOk(PutField(m, k, name, path))
  {
  }

  lemma ElementPathStepOk(t: Tables, path: string)
    requires TablesOk(t.fields)
    ensures TablesOk(ElementPathStep(t, path).fields)
  {
    var segs := Split(path, Marker);
    var base := segs[0];
    var fields := EnsureTable(t.fields, base);
    assert TablesOk(fields);
    if |segs| > 2 {
      var first := SplitOnce(segs[1], ".");
      var nested := base + Marker + first[0];
      SplitTwoPrefix(path, Marker);
      SplitPartsShorter(segs[1], ".");
      assert |nested| < |path|;
      var fields' := EnsureTable(fields, nested);
      assert TablesOk(fields');
      if |segs| == 3 {
        PutFieldOk(fields', nested, segs[2], path);
      } else if |first| > 1 {
        PutFieldOk(fields', nested, SplitOnce(first[1], ".")[0], path);
      }
    } else if |segs| == 2 {
      SplitPrefix(path, Marker);
      PutFieldOk(fields, base, SplitOnce(segs[1], ".")[0], path);
    }
  }

  lemma {:induction false} ArrayElementsOk(paths: seq<string>)
    ensures TablesOk(ArrayElementsOf(paths).fields)
    decreases |paths|
  {
    if |paths| > 0 {
      ArrayElementsOk(paths[..|paths| - 1]);
      ElementPathStepOk(ArrayElementsOf(paths[..|paths| - 1]), paths[|paths| - 1]);
    }
  }

  lemma BuildIndexWellFormed(h: Helper, input: seq<Descriptor>)
    ensures WellFormed(BuildIndex(h, input))
  {
    PathDataFirstSeenLastWrite(input);
    ArrayElementsOk(SortBy(ElementPaths(PathDataOf(input).keys), Nesting));
    forall k | k in FieldOrderOf(input) ensures NoDup(FieldOrderOf(input)[k]) {
      FieldOrderFirstSeen(input, k);
    }
  }

  lemma PathDataSnoc(items: seq<Descriptor>, i: nat)
    requires i < |items|
    ensures PathDataOf(items[..i + 1]) == PathDataOf(items[..i]).Put(items[i].path, items[i])
  {
    assert PathPairs(items[..i + 1]) == PathPairs(items[..i]) + [(items[i].path, items[i])];
    PutAllSnoc(PathPairs(items[..i]), (items[i].path, items[i]));
  }

  /** How `top_level_paths` and `top_level_items` grow with one more input item. */
  lemma TopLevelAt(items: seq<Descriptor>, i: nat)
    requires i < |items|
    ensures HeadSet(items[..i + 1]) == HeadSet(items[..i]) + {Head(items[i].path)}
    ensures TopLevelOf(items[..i + 1]) ==
      TopLevelOf(items[..i]) + (if Head(items[i].path) in HeadSet(items[..i]) then [] else [items[i]])
  {
    assert items[..i + 1][..i] == items[..i];
  }

  /** `original_order.get(path, 999999)`, with the whole input length as the default. */
  function OrderOf(ix: Index, path: string): int
  {
    if path in ix.originalOrder then ix.originalOrder[path] else |ix.input|
  }
}
